/**
 * Promotion activities (`registrarActividad`, `actualizarActividad`): the
 * request-body checks, the PrepID rule that depends on Tipo, and the
 * parameter list bound to the INSERT or UPDATE of ActividadPromocion.
 */
module Activity {
  import opened Wrappers
  import opened JsValues
  import StoreErrors

  /** The fields destructured from the request body, as sent. */
  datatype ActivityBody = ActivityBody(
    docenteId: Value,
    prepId: Value,
    tipo: Value,
    fecha: Value,
    studentsReached: Value,
    promotedPrograms: Value,
    notes: Value,
    evidenceUrl: Value)

  /** Why a body is answered with 400. */
  datatype Rejection = MissingRequiredFields | SchoolRequired(tipo: Value)

  /** The activity types the interface declares for Tipo. */
  const Visitada := Str("Visitada")
  const Invitada := Str("Invitada")
  const Digital := Str("Digital")

  predicate DeclaredTipo(t: Value) {
    t == Visitada || t == Invitada || t == Digital
  }

  /**
   * DocenteID, Tipo and Fecha must be truthy; EstudiantesAlcanzados only
   * has to be present, so 0 is accepted.
   */
  predicate RequiredPresent(b: ActivityBody) {
    Truthy(b.docenteId) && Truthy(b.tipo) && Truthy(b.fecha) && !Nullish(b.studentsReached)
  }

  /** Visits to and invitations from a school must name the school. */
  predicate NeedsSchool(t: Value) {
    t == Visitada || t == Invitada
  }

  /** `finalPrepID`: a digital activity is stored without a school. */
  function StoredPrepId(b: ActivityBody): Value {
    if b.tipo == Digital then Null else b.prepId
  }

  /** The eight columns in table order, with the `||` defaults applied. */
  function Columns(b: ActivityBody): seq<Value> {
    [ b.docenteId, StoredPrepId(b), b.tipo, b.fecha, b.studentsReached,
      Or(b.promotedPrograms, Str("")), Or(b.notes, Str("")), Or(b.evidenceUrl, Null) ]
  }

  /**
   * `p` starts with the eight columns of `b` in table order: the school as
   * the Digital rule decides, and each optional column keeps a truthy value
   * or takes its `||` default.
   */
  predicate BindsColumns(b: ActivityBody, p: seq<Value>) {
    && |p| >= 8
    && p[0] == b.docenteId && p[2] == b.tipo && p[3] == b.fecha && p[4] == b.studentsReached
    && (b.tipo == Digital ==> p[1] == Null)
    && (b.tipo != Digital ==> p[1] == b.prepId)
    && (Truthy(b.promotedPrograms) ==> p[5] == b.promotedPrograms)
    && (Falsy(b.promotedPrograms) ==> p[5] == Str(""))
    && (Truthy(b.notes) ==> p[6] == b.notes)
    && (Falsy(b.notes) ==> p[6] == Str(""))
    && (Truthy(b.evidenceUrl) ==> p[7] == b.evidenceUrl)
    && (Falsy(b.evidenceUrl) ==> p[7] == Null)
  }

  /**
   * Validation for create, then the INSERT parameter list. A body is
   * accepted exactly when the required fields are present and a Visitada or
   * Invitada activity names a school; a missing required field is reported
   * before the school rule. An accepted body binds eight values in column
   * order: the school is null exactly for a digital activity (for the
   * declared types), no value is undefined, and the optional columns keep a
   * truthy value or take their default.
   */
  function CreateParameters(b: ActivityBody): (r: Result<seq<Value>, Rejection>)
    ensures r.Success? <==> RequiredPresent(b) && (NeedsSchool(b.tipo) ==> Truthy(b.prepId))
    ensures !RequiredPresent(b) ==> r == Failure(MissingRequiredFields)
    ensures RequiredPresent(b) && NeedsSchool(b.tipo) && Falsy(b.prepId) ==> r == Failure(SchoolRequired(b.tipo))
    ensures r.Success? ==> var p := r.value;
      && |p| == 8
      && BindsColumns(b, p)
      && (DeclaredTipo(b.tipo) ==> (p[1] == Null <==> b.tipo == Digital))
      && (DeclaredTipo(b.tipo) ==> forall k :: 0 <= k < 8 ==> p[k] != Undefined)
  {
    if !RequiredPresent(b) then Failure(MissingRequiredFields)
    else if NeedsSchool(b.tipo) && Falsy(b.prepId) then Failure(SchoolRequired(b.tipo))
    else Success(Columns(b))
  }

  /**
   * Validation for update, then the UPDATE parameter list: only the
   * required fields are checked, the school follows the same Digital rule
   * without being demanded, the same eight columns are bound, and the id
   * comes ninth, for the WHERE clause.
   */
  function UpdateParameters(b: ActivityBody, id: string): (r: Result<seq<Value>, Rejection>)
    ensures r.Success? <==> RequiredPresent(b)
    ensures r.Failure? ==> r.error == MissingRequiredFields
    ensures r.Success? ==>
      && |r.value| == 9
      && BindsColumns(b, r.value)
      && r.value[8] == Str(id)
  {
    if !RequiredPresent(b) then Failure(MissingRequiredFields)
    else Success(Columns(b) + [Str(id)])
  }

  /**
   * Update binds the same eight columns as create and appends the id, and
   * it accepts every body create accepts; it also accepts a visit without a
   * school, which create refuses.
   */
  lemma UpdateAgreesWithCreate(b: ActivityBody, id: string)
    ensures CreateParameters(b).Success? ==> UpdateParameters(b, id).Success?
    ensures CreateParameters(b).Success? ==>
      UpdateParameters(b, id).value == CreateParameters(b).value + [Str(id)]
    ensures RequiredPresent(b) && NeedsSchool(b.tipo) && Falsy(b.prepId) ==>
      CreateParameters(b).Failure? && UpdateParameters(b, id).Success?
  {
  }

  // ---------------------------------------------------------------------
  // The handlers
  // ---------------------------------------------------------------------

  /** What `query` returned or threw, supplied by the store. */
  datatype QueryResult = QueryOk(insertId: int, affectedRows: nat) | QueryFailed(message: string)

  /** The parameters passed to `query` (None: it was not called) and the reply. */
  datatype Exchange<R> = Exchange(sent: Option<seq<Value>>, reply: R)

  datatype CreateReply =
    | CreateRejected(reason: Rejection)
    | Created(tipo: Value, activityId: int)
    | CreateRelationError(details: string)
    | CreateServerError(details: string)
  {
    function Status(): nat {
      match this
      case CreateRejected(_) => 400
      case Created(_, _) => 201
      case CreateRelationError(_) => 404
      case CreateServerError(_) => 500
    }
  }

  datatype UpdateReply =
    | UpdateRejected(reason: Rejection)
    | Updated
    | ActivityNotFound
    | UpdateRelationError
    | UpdateServerError(details: string)
  {
    function Status(): nat {
      match this
      case UpdateRejected(_) => 400
      case Updated => 200
      case ActivityNotFound => 404
      case UpdateRelationError => 404
      case UpdateServerError(_) => 500
    }
  }

  /** POST /api/actividades. `run` is what `query` does with the INSERT. */
  function RegisterActivity(b: ActivityBody, run: QueryResult): (x: Exchange<CreateReply>)
    ensures x.sent.None? <==> CreateParameters(b).Failure?
    ensures x.sent.Some? ==> x.sent.value == CreateParameters(b).value
    ensures x.reply.Status() == 400 <==> x.sent.None?
    ensures x.sent.Some? && run.QueryOk? ==> x.reply == Created(b.tipo, run.insertId)
    ensures x.sent.Some? && run.QueryFailed? ==> x.reply.Status() == StoreErrors.Classify(run.message).Status()
  {
    match CreateParameters(b)
    case Failure(reason) => Exchange(None, CreateRejected(reason))
    case Success(values) =>
      var reply :=
        match run
        case QueryOk(insertId, _) => Created(b.tipo, insertId)
        case QueryFailed(message) =>
          if StoreErrors.Classify(message) == StoreErrors.RelationError
          then CreateRelationError(message)
          else CreateServerError(message);
      Exchange(Some(values), reply)
  }

  /** PUT /api/actividades/:id. `run` is what `query` does with the UPDATE. */
  function UpdateActivity(b: ActivityBody, id: string, run: QueryResult): (x: Exchange<UpdateReply>)
    ensures x.sent.None? <==> !RequiredPresent(b)
    ensures x.sent.Some? ==> x.sent.value == UpdateParameters(b, id).value
    ensures x.reply.Status() == 400 <==> x.sent.None?
    ensures x.sent.Some? && run.QueryOk? ==> (x.reply == ActivityNotFound <==> run.affectedRows == 0)
    ensures x.sent.Some? && run.QueryOk? && run.affectedRows > 0 ==> x.reply == Updated
    ensures x.sent.Some? && run.QueryFailed? ==> x.reply.Status() == StoreErrors.Classify(run.message).Status()
  {
    match UpdateParameters(b, id)
    case Failure(reason) => Exchange(None, UpdateRejected(reason))
    case Success(values) =>
      var reply :=
        match run
        case QueryOk(_, affectedRows) => if affectedRows == 0 then ActivityNotFound else Updated
        case QueryFailed(message) =>
          if StoreErrors.Classify(message) == StoreErrors.RelationError
          then UpdateRelationError
          else UpdateServerError(message);
      Exchange(Some(values), reply)
  }

  /**
   * With the query wrapper in place, a failed INSERT or UPDATE is always
   * answered 500, never with the 404 for a missing teacher or school.
   */
  lemma StoreFailuresAreServerErrors(b: ActivityBody, id: string, driverMessage: string)
    ensures RegisterActivity(b, QueryFailed(StoreErrors.WrapDriverError(driverMessage))).reply.Status() != 404
    ensures UpdateActivity(b, id, QueryFailed(StoreErrors.WrapDriverError(driverMessage))).reply.Status() != 404
  {
    StoreErrors.WrappedErrorsAreInternal(driverMessage);
  }

  /**
   * With a wrapper that rethrows the driver's error, an accepted body whose
   * INSERT or UPDATE violates a foreign key is answered 404.
   */
  lemma RelationErrorsAreNotFound(b: ActivityBody, id: string, driverMessage: string)
    requires Includes(driverMessage, StoreErrors.ForeignKeyViolation)
    ensures CreateParameters(b).Success? ==>
      RegisterActivity(b, QueryFailed(StoreErrors.RethrowDriverError(driverMessage))).reply.Status() == 404
    ensures RequiredPresent(b) ==>
      UpdateActivity(b, id, QueryFailed(StoreErrors.RethrowDriverError(driverMessage))).reply == UpdateRelationError
  {
  }
}
