/**
 * Batch attendance registration (`registrarAsistenciaMasiva`): one
 * multi-row INSERT ... ON DUPLICATE KEY UPDATE for a whole list of
 * attendance records, keyed by the unique pair (ClaseID, EstudianteID).
 */
module Attendance {
  import opened Wrappers
  import opened JsValues
  import StoreErrors

  /** One element of `registros`, each field as the client sent it. */
  datatype AttendanceRecord = AttendanceRecord(classId: Value, studentId: Value, date: Value, status: Value)

  /** The unique key of table RegistroAsistencia: (ClaseID, EstudianteID). */
  datatype Key = Key(classId: Value, studentId: Value)

  /** The non-key columns that an upsert writes: Fecha and Status. */
  datatype Row = Row(date: Value, status: Value)

  function KeyOf(r: AttendanceRecord): Key {
    Key(r.classId, r.studentId)
  }

  function RowOf(r: AttendanceRecord): Row {
    Row(r.date, r.status)
  }

  /** A record passes the per-record check when none of its four fields is falsy. */
  predicate Complete(r: AttendanceRecord) {
    Truthy(r.classId) && Truthy(r.studentId) && Truthy(r.date) && Truthy(r.status)
  }

  predicate AllComplete(rs: seq<AttendanceRecord>) {
    forall i :: 0 <= i < |rs| ==> Complete(rs[i])
  }

  const IncompleteRecordMessage := "Registro incompleto en la lista masiva."

  // ---------------------------------------------------------------------
  // The statement text
  // ---------------------------------------------------------------------

  /** The SQL text is kept in short pieces so that the verifier can inspect each. */
  const InsertClause := "INSERT INTO RegistroAsistencia " + "(ClaseID, EstudianteID, " + "Fecha, Status) VALUES "
  const PlaceholderGroup := "(?, ?, ?, ?)"
  const GroupSeparator := ", "
  const UpsertClause := " ON DUPLICATE KEY UPDATE " + "Fecha = VALUES(Fecha), " + "Status = VALUES(Status)"

  /** `registros.map(() => '(?, ?, ?, ?)').join(', ')` for a list of `n` records. */
  function Placeholders(n: nat): string {
    if n == 0 then ""
    else if n == 1 then PlaceholderGroup
    else Placeholders(n - 1) + GroupSeparator + PlaceholderGroup
  }

  /** The full statement sent for a list of `n` records. */
  function Statement(n: nat): string {
    InsertClause + Placeholders(n) + UpsertClause
  }

  /** The number of `?` markers, which the driver binds one value each. */
  function CountMarkers(s: string): nat {
    if s == [] then 0 else CountMarkers(s[1..]) + (if s[0] == '?' then 1 else 0)
  }

  lemma {:induction false} CountMarkersAppend(a: string, b: string)
    ensures CountMarkers(a + b) == CountMarkers(a) + CountMarkers(b)
  {
    if a == [] {
      assert a + b == b;
    } else {
      assert (a + b)[1..] == a[1..] + b;
      CountMarkersAppend(a[1..], b);
    }
  }

  lemma {:induction false} NoMarkers(s: string)
    requires '?' !in s
    ensures CountMarkers(s) == 0
  {
    if s != [] {
      assert s[0] in s;
      assert forall c :: c in s[1..] ==> c in s;
      NoMarkers(s[1..]);
    }
  }

  lemma NoMarkersIn(a: string, b: string)
    requires '?' !in a && '?' !in b
    ensures CountMarkers(a + b) == 0
  {
    CountMarkersAppend(a, b);
    NoMarkers(a);
    NoMarkers(b);
  }

  /** The clause before the VALUES list carries no placeholder. */
  lemma InsertClauseHasNoMarkers()
    ensures CountMarkers(InsertClause) == 0
  {
    NoMarkersIn("INSERT INTO RegistroAsistencia ", "(ClaseID, EstudianteID, ");
    NoMarkersIn("INSERT INTO RegistroAsistencia " + "(ClaseID, EstudianteID, ", "Fecha, Status) VALUES ");
  }

  /** The clause after the VALUES list carries no placeholder. */
  lemma UpsertClauseHasNoMarkers()
    ensures CountMarkers(UpsertClause) == 0
  {
    NoMarkersIn(" ON DUPLICATE KEY UPDATE ", "Fecha = VALUES(Fecha), ");
    NoMarkersIn(" ON DUPLICATE KEY UPDATE " + "Fecha = VALUES(Fecha), ", "Status = VALUES(Status)");
  }

  /** One group of four placeholders per record. */
  lemma PlaceholderGroupMarkers()
    ensures CountMarkers(PlaceholderGroup) == 4
  {
    assert CountMarkers("(?, ") == 1 && CountMarkers("?, ") == 1 && CountMarkers("?)") == 1;
    CountMarkersAppend("(?, ", "?, ");
    CountMarkersAppend("(?, ?, ", "?, ");
    CountMarkersAppend("(?, ?, ?, ", "?)");
  }

  lemma {:induction false} PlaceholdersPerRecord(n: nat)
    ensures CountMarkers(Placeholders(n)) == 4 * n
  {
    PlaceholderGroupMarkers();
    if n > 1 {
      PlaceholdersPerRecord(n - 1);
      NoMarkers(GroupSeparator);
      CountMarkersAppend(Placeholders(n - 1), GroupSeparator);
      CountMarkersAppend(Placeholders(n - 1) + GroupSeparator, PlaceholderGroup);
    }
  }

  /** The statement for `n` records has exactly `4 * n` placeholders. */
  lemma StatementPlaceholders(n: nat)
    ensures CountMarkers(Statement(n)) == 4 * n
  {
    InsertClauseHasNoMarkers();
    UpsertClauseHasNoMarkers();
    PlaceholdersPerRecord(n);
    CountMarkersAppend(InsertClause, Placeholders(n));
    CountMarkersAppend(InsertClause + Placeholders(n), UpsertClause);
  }

  // ---------------------------------------------------------------------
  // The parameter list
  // ---------------------------------------------------------------------

  function Fields(r: AttendanceRecord): seq<Value> {
    [r.classId, r.studentId, r.date, r.status]
  }

  /** The values pushed for `rs`, record after record, four per record. */
  function Parameters(rs: seq<AttendanceRecord>): seq<Value> {
    if rs == [] then [] else Parameters(rs[..|rs| - 1]) + Fields(rs[|rs| - 1])
  }

  /** Record `i` occupies positions `4 * i` to `4 * i + 3`, in column order. */
  lemma {:induction false} ParametersLayout(rs: seq<AttendanceRecord>)
    ensures |Parameters(rs)| == 4 * |rs|
    ensures forall i :: 0 <= i < |rs| ==>
      && Parameters(rs)[4 * i] == rs[i].classId
      && Parameters(rs)[4 * i + 1] == rs[i].studentId
      && Parameters(rs)[4 * i + 2] == rs[i].date
      && Parameters(rs)[4 * i + 3] == rs[i].status
  {
    if rs != [] {
      var init := rs[..|rs| - 1];
      ParametersLayout(init);
      forall i | 0 <= i < |init| ensures rs[i] == init[i] { }
    }
  }

  /** The statement has as many placeholders as there are parameters. */
  lemma PlaceholdersMatchParameters(rs: seq<AttendanceRecord>)
    ensures CountMarkers(Statement(|rs|)) == |Parameters(rs)|
  {
    StatementPlaceholders(|rs|);
    ParametersLayout(rs);
  }

  /** How the store binds a flat value list to the groups of four placeholders. */
  function Decode(vs: seq<Value>): (rs: seq<AttendanceRecord>)
    requires |vs| % 4 == 0
    ensures |rs| == |vs| / 4
    ensures forall i :: 0 <= i < |rs| ==> rs[i] == AttendanceRecord(vs[4 * i], vs[4 * i + 1], vs[4 * i + 2], vs[4 * i + 3])
    decreases |vs|
  {
    if vs == [] then []
    else
      var rest := Decode(vs[4..]);
      var rs := [AttendanceRecord(vs[0], vs[1], vs[2], vs[3])] + rest;
      assert forall i :: 1 <= i < |rs| ==> rs[i] == rest[i - 1];
      rs
  }

  /** Binding the parameter list to the placeholders gives back the records, in order. */
  lemma DecodeParameters(rs: seq<AttendanceRecord>)
    ensures |Parameters(rs)| % 4 == 0
    ensures Decode(Parameters(rs)) == rs
  {
    ParametersLayout(rs);
  }

  /**
   * The `forEach` that checks each record and pushes its four fields. The
   * first incomplete record throws; otherwise the list is `Parameters(rs)`.
   */
  method CollectParameters(rs: seq<AttendanceRecord>) returns (r: Result<seq<Value>, string>)
    ensures r.Success? <==> AllComplete(rs)
    ensures r.Success? ==> r.value == Parameters(rs)
    ensures r.Failure? ==> r.error == IncompleteRecordMessage
  {
    var values: seq<Value> := [];
    var i := 0;
    while i < |rs|
      invariant 0 <= i <= |rs|
      invariant AllComplete(rs[..i])
      invariant values == Parameters(rs[..i])
    {
      var rec := rs[i];
      if !Complete(rec) {
        return Failure(IncompleteRecordMessage);
      }
      values := values + [rec.classId, rec.studentId, rec.date, rec.status];
      assert rs[..i + 1][..i] == rs[..i];
      i := i + 1;
    }
    assert rs[..i] == rs;
    return Success(values);
  }

  // ---------------------------------------------------------------------
  // Upsert semantics
  // ---------------------------------------------------------------------

  /**
   * The table after the statement: rows are inserted or overwritten one
   * record at a time, so a later record with the same key wins.
   */
  function ApplyBatch(m: map<Key, Row>, rs: seq<AttendanceRecord>): map<Key, Row> {
    if rs == [] then m
    else ApplyBatch(m, rs[..|rs| - 1])[KeyOf(rs[|rs| - 1]) := RowOf(rs[|rs| - 1])]
  }

  function BatchKeys(rs: seq<AttendanceRecord>): set<Key> {
    set i | 0 <= i < |rs| :: KeyOf(rs[i])
  }

  /** The table afterwards holds the old keys plus the batch's keys, and no other. */
  lemma {:induction false} UpsertKeys(m: map<Key, Row>, rs: seq<AttendanceRecord>)
    ensures ApplyBatch(m, rs).Keys == m.Keys + BatchKeys(rs)
  {
    if rs != [] {
      var init := rs[..|rs| - 1];
      UpsertKeys(m, init);
      assert BatchKeys(rs) == BatchKeys(init) + {KeyOf(rs[|rs| - 1])} by {
        forall k | k in BatchKeys(rs) ensures k in BatchKeys(init) + {KeyOf(rs[|rs| - 1])} {
          var i :| 0 <= i < |rs| && k == KeyOf(rs[i]);
          if i < |rs| - 1 { assert KeyOf(init[i]) == k; }
        }
        forall k | k in BatchKeys(init) ensures k in BatchKeys(rs) {
          var i :| 0 <= i < |init| && k == KeyOf(init[i]);
          assert KeyOf(rs[i]) == k;
        }
      }
    }
  }

  /** A row whose key the batch does not mention is untouched. */
  lemma {:induction false} UpsertKeepsOtherRows(m: map<Key, Row>, rs: seq<AttendanceRecord>, k: Key)
    requires forall i :: 0 <= i < |rs| ==> KeyOf(rs[i]) != k
    ensures k in ApplyBatch(m, rs) <==> k in m
    ensures k in m ==> ApplyBatch(m, rs)[k] == m[k]
  {
    if rs != [] {
      var init := rs[..|rs| - 1];
      assert forall i :: 0 <= i < |init| ==> init[i] == rs[i];
      UpsertKeepsOtherRows(m, init, k);
    }
  }

  /** The row of a record's key holds that record's Fecha and Status when no later record shares the key. */
  lemma {:induction false} UpsertLastWins(m: map<Key, Row>, rs: seq<AttendanceRecord>, i: nat)
    requires i < |rs|
    requires forall j :: i < j < |rs| ==> KeyOf(rs[j]) != KeyOf(rs[i])
    ensures KeyOf(rs[i]) in ApplyBatch(m, rs)
    ensures ApplyBatch(m, rs)[KeyOf(rs[i])] == RowOf(rs[i])
  {
    if i < |rs| - 1 {
      var init := rs[..|rs| - 1];
      assert forall j :: 0 <= j < |init| ==> init[j] == rs[j];
      UpsertLastWins(m, init, i);
    }
  }

  predicate DistinctKeys(rs: seq<AttendanceRecord>) {
    forall i, j :: 0 <= i < j < |rs| ==> KeyOf(rs[i]) != KeyOf(rs[j])
  }

  /** For a batch with one record per student, every record's row holds its values. */
  lemma UpsertStoresEveryRecord(m: map<Key, Row>, rs: seq<AttendanceRecord>)
    requires DistinctKeys(rs)
    ensures forall i :: 0 <= i < |rs| ==> KeyOf(rs[i]) in ApplyBatch(m, rs) && ApplyBatch(m, rs)[KeyOf(rs[i])] == RowOf(rs[i])
  {
    forall i | 0 <= i < |rs|
      ensures KeyOf(rs[i]) in ApplyBatch(m, rs) && ApplyBatch(m, rs)[KeyOf(rs[i])] == RowOf(rs[i])
    {
      UpsertLastWins(m, rs, i);
    }
  }

  /** The upsert overlays the batch's own rows on the old table. */
  lemma {:induction false} UpsertIsOverlay(m: map<Key, Row>, rs: seq<AttendanceRecord>)
    ensures ApplyBatch(m, rs) == m + ApplyBatch(map[], rs)
  {
    if rs != [] {
      var init := rs[..|rs| - 1];
      UpsertIsOverlay(m, init);
    }
  }

  /** Submitting the same batch a second time leaves the table as the first submission left it. */
  lemma UpsertIdempotent(m: map<Key, Row>, rs: seq<AttendanceRecord>)
    ensures ApplyBatch(ApplyBatch(m, rs), rs) == ApplyBatch(m, rs)
  {
    var b := ApplyBatch(map[], rs);
    UpsertIsOverlay(m, rs);
    UpsertIsOverlay(m + b, rs);
    assert (m + b) + b == m + b;
  }

  // ---------------------------------------------------------------------
  // The handler
  // ---------------------------------------------------------------------

  /** What the client sees. `Unhandled` is the error thrown outside the try block: no response is sent. */
  datatype BatchReply =
    | MissingRecords
    | Registered(count: nat, classId: Value)
    | RelationNotFound(details: string)
    | ServerError(details: string)
    | Unhandled(message: string)
  {
    function Status(): Option<nat> {
      match this
      case MissingRecords => Some(400)
      case Registered(_, _) => Some(201)
      case RelationNotFound(_) => Some(404)
      case ServerError(_) => Some(500)
      case Unhandled(_) => None
    }
  }

  function ReplyForStoreError(message: string): (reply: BatchReply)
    ensures reply.Status() == Some(StoreErrors.Classify(message).Status())
  {
    match StoreErrors.Classify(message)
    case RelationError => RelationNotFound(message)
    case InternalError => ServerError(message)
  }

  /**
   * Through the wrapper as written, a failed upsert is always a 500; with a
   * wrapper that rethrows the driver's error, a foreign-key violation is the
   * 404 the handler is written for.
   */
  lemma StoreFailureReplies(driverMessage: string)
    ensures ReplyForStoreError(StoreErrors.WrapDriverError(driverMessage)).Status() == Some(500)
    ensures Includes(driverMessage, StoreErrors.ForeignKeyViolation) ==>
      ReplyForStoreError(StoreErrors.RethrowDriverError(driverMessage)) == RelationNotFound(driverMessage)
  {
    StoreErrors.WrappedErrorsAreInternal(driverMessage);
  }

  /** Table RegistroAsistencia, one row per (ClaseID, EstudianteID). */
  class AttendanceTable {
    var rows: map<Key, Row>

    constructor (initial: map<Key, Row>)
      ensures rows == initial
    {
      rows := initial;
    }

    /**
     * The store executing the statement: the values are bound four at a
     * time to the placeholder groups and each group is inserted, or
     * overwrites Fecha and Status of the row with the same key.
     */
    method ExecuteUpsert(sql: string, values: seq<Value>)
      requires |values| % 4 == 0
      requires CountMarkers(sql) == |values|
      modifies this
      ensures rows == ApplyBatch(old(rows), Decode(values))
    {
      var batch := Decode(values);
      var i := 0;
      while i < |values| / 4
        invariant 0 <= i <= |batch|
        invariant rows == ApplyBatch(old(rows), batch[..i])
      {
        rows := rows[Key(values[4 * i], values[4 * i + 1]) := Row(values[4 * i + 2], values[4 * i + 3])];
        assert batch[..i + 1][..i] == batch[..i];
        i := i + 1;
      }
      assert batch[..i] == batch;
    }

    /**
     * POST /api/asistencia. `registros` is None when the body has no list;
     * `storeFailure` is the message of the error `query` throws, if it does.
     */
    method RegisterBatch(registros: Option<seq<AttendanceRecord>>, storeFailure: Option<string>)
      returns (reply: BatchReply)
      modifies this
      ensures registros.None? || registros.value == [] ==>
        reply == MissingRecords && rows == old(rows)
      ensures registros.Some? && registros.value != [] && !AllComplete(registros.value) ==>
        reply == Unhandled(IncompleteRecordMessage) && rows == old(rows)
      ensures registros.Some? && registros.value != [] && AllComplete(registros.value) && storeFailure.Some? ==>
        reply == ReplyForStoreError(storeFailure.value) && rows == old(rows)
      ensures registros.Some? && registros.value != [] && AllComplete(registros.value) && storeFailure.None? ==>
        && reply == Registered(|registros.value|, registros.value[0].classId)
        && rows == ApplyBatch(old(rows), registros.value)
    {
      if registros.None? || registros.value == [] {
        return MissingRecords;
      }
      var rs := registros.value;
      var sql := Statement(|rs|);
      var collected := CollectParameters(rs);
      if collected.Failure? {
        return Unhandled(collected.error);
      }
      var values := collected.value;
      if storeFailure.Some? {
        return ReplyForStoreError(storeFailure.value);
      }
      PlaceholdersMatchParameters(rs);
      DecodeParameters(rs);
      ExecuteUpsert(sql, values);
      reply := Registered(|rs|, rs[0].classId);
    }
  }
}
