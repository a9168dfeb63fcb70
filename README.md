# Admissions back end: attendance, promotion activities and evidence files

This project models three request handlers of an Express/MySQL back end for
a university admissions office, and proves properties of the model in Dafny.

- **Bulk attendance** (`registrarAsistenciaMasiva`, POST /api/asistencia). It
  checks the list of records and builds one
  `INSERT … VALUES (?, ?, ?, ?), … ON DUPLICATE KEY UPDATE` statement with
  its flat parameter list. It then upserts every record into
  RegistroAsistencia, keyed by (ClaseID, EstudianteID).
- **Promotion activities** (`registrarActividad`, `actualizarActividad`). They
  validate the request body. Only create requires a school (PrepID) for
  visits and invitations; both store it as null for digital activities.
  They then build the INSERT or UPDATE parameters and map the store's
  answer to an HTTP status.
- **Evidence files** (`obtenerArchivosUploads`, `eliminarArchivoUploads`). One
  handler lists the regular files of the uploads folder. Each file gets a type
  derived from its extension, an id numbered in directory order, and a place
  in newest-first order. The other handler deletes one file by name.

Modules:

| module | file | contents |
|---|---|---|
| `Wrappers` | `wrappers.dfy` | `Option`, `Result` |
| `JsValues` | `js_values.dfy` | JSON body values, truthiness (`!x`, `x \|\| d`), `String.prototype.includes` |
| `StoreErrors` | `store_errors.dfy` | the `query` wrapper and the catch blocks' relation-error test |
| `Attendance` | `attendance.dfy` | the statement text, the parameter list, the upsert as a class `AttendanceTable` over a map |
| `Activity` | `activity.dfy` | validation, the parameter lists, the create and update handlers |
| `Evidence` | `evidence.dfy` | extensions, classification, the listing pipeline and its stable sort, and the folder as a class `UploadsFolder` |

The three handlers that change state are methods of a class:
- `AttendanceTable.RegisterBatch` modifies the table's `rows`.
- `UploadsFolder.ListUploads` creates the folder when it is missing (`present`).
- `UploadsFolder.DeleteUpload` modifies the folder's `entries`.

Their `ensures` give the new state as a function of the old one (`ApplyBatch`,
`Without`, and `present` set when creation succeeds), and the lemmas beside them prove what those functions do. The
parameter collection is a `forEach` in the source. It is the method
`CollectParameters`, whose loop is proved against the function `Parameters`.

Several points follow the code rather than the endpoints' documented intent
(the error statuses each endpoint is described as returning):
- **Incomplete attendance record.** The endpoint is documented to answer 400
  for a malformed entry. The code
  throws at `asistencia.controller.ts:46`, outside the `try`, so the
  handler's own catch never answers it; the model's reply is `Unhandled`.
- **Unknown ClaseID, EstudianteID, DocenteID or PrepID.** The endpoints are
  documented to answer 404. The `query` wrapper in `database.ts` replaces every driver
  error with "Database query failed", so the handlers' 404 branches are never
  taken (see Findings). The handlers themselves are modelled as written.
- **Visit without a school on update.** `actualizarActividad` does not check
  the school rule, so such an update is accepted. Its PrepID is passed to
  the UPDATE as sent; whether the store then accepts it is the driver's
  and the database's business (see Left out).

## Model

| member | source | states |
|---|---|---|
| Attendance.AttendanceTable.RegisterBatch | src/controllers/asistencia.controller.ts:30-68 | a missing or empty list gives 400 and leaves the table alone. An incomplete record gives the unhandled error and leaves the table alone. A store failure gives the classified 404/500 reply and leaves the table alone. Otherwise the reply is 201 with the count and the first ClaseID, and the table is the old one with the whole batch upserted |
| Attendance.AttendanceTable.ExecuteUpsert | src/controllers/asistencia.controller.ts:40-41 | binding the values four at a time and inserting or overwriting each key leaves the table equal to `ApplyBatch` of the decoded batch |
| Attendance.CollectParameters | src/controllers/asistencia.controller.ts:43-49 | succeeds exactly when every record has four truthy fields. On success the values are the records' fields in order; otherwise the error is the incomplete-record message |
| Attendance.InsertClauseHasNoMarkers | src/controllers/asistencia.controller.ts:38 | the INSERT prefix holds no `?` |
| Attendance.UpsertClauseHasNoMarkers | src/controllers/asistencia.controller.ts:41 | the ON DUPLICATE KEY suffix holds no `?` |
| Attendance.PlaceholderGroupMarkers | src/controllers/asistencia.controller.ts:39 | one group `(?, ?, ?, ?)` holds four placeholders |
| Attendance.PlaceholdersPerRecord | src/controllers/asistencia.controller.ts:39 | the joined groups for n records hold 4n placeholders |
| Attendance.StatementPlaceholders | src/controllers/asistencia.controller.ts:38-41 | the whole statement for n records holds exactly 4n placeholders |
| Attendance.ParametersLayout | src/controllers/asistencia.controller.ts:44-49 | the parameter list has 4 values per record, and record i's ClaseID, EstudianteID, Fecha and Status sit at positions 4i to 4i+3 |
| Attendance.PlaceholdersMatchParameters | src/controllers/asistencia.controller.ts:38-49 | the statement has as many placeholders as the parameter list has values |
| Attendance.Decode | src/controllers/asistencia.controller.ts:52 | binding a value list to the groups gives one record per four values, field by field |
| Attendance.DecodeParameters | src/controllers/asistencia.controller.ts:38-52 | binding the collected parameters gives back exactly the submitted records, in order |
| Attendance.UpsertKeys | src/controllers/asistencia.controller.ts:40-41 | after the upsert the table's keys are the old keys plus the batch's keys, and no others |
| Attendance.UpsertKeepsOtherRows | src/controllers/asistencia.controller.ts:40-41 | a row whose key the batch does not mention is unchanged, and a key absent before stays absent |
| Attendance.UpsertLastWins | src/controllers/asistencia.controller.ts:41 | a record's key holds that record's Fecha and Status when no later record repeats the key |
| Attendance.UpsertStoresEveryRecord | src/controllers/asistencia.controller.ts:41 | with one record per (class, student), every record's row holds its own values |
| Attendance.UpsertIsOverlay | src/controllers/asistencia.controller.ts:41 | the upsert lays the batch's rows over the old table |
| Attendance.UpsertIdempotent | src/controllers/asistencia.controller.ts:41 | sending the same batch twice leaves the table as one submission does |
| Attendance.ReplyForStoreError | src/controllers/asistencia.controller.ts:57-66 | a failed query is answered with the status the relation-error test gives: 404 or 500 |
| Attendance.StoreFailureReplies | src/database.ts:19-27 | through the wrapper as written, a failed upsert is always 500. With a rethrowing wrapper, a foreign-key violation is the 404 reply carrying the driver's message |
| JsValues.Includes | src/controllers/asistencia.controller.ts:61 | `includes` is true exactly when the pattern occurs at some position of the message |
| StoreErrors.Classify | src/controllers/actividad.controller.ts:74-81 | a message is a relation error (404) exactly when it contains "Cannot add or update a child row"; otherwise it is an internal error (500) |
| StoreErrors.WrappedErrorsAreInternal | src/database.ts:19-27 | whatever the driver reports, the wrapped error classifies as internal, status 500 |
| StoreErrors.ForeignKeyReportIsLost | src/database.ts:23-26 | the foreign-key report is answered 500 through the wrapper as written and 404 through the rethrowing one |
| StoreErrors.RethrowDriverError | src/database.ts:19-27 | with the driver's message passed on, a foreign-key violation classifies as a relation error and every other message as internal |
| Activity.CreateParameters | src/controllers/actividad.controller.ts:37-63 | accepted exactly when DocenteID, Tipo and Fecha are truthy, EstudiantesAlcanzados is not null or undefined, and a Visitada/Invitada activity has a truthy PrepID. A missing field is reported before the school rule. Accepted: eight values in column order, PrepID as sent unless Digital, and the `\|\|` defaults for the optional columns. For the three declared types, PrepID is null exactly for Digital and no value is undefined |
| Activity.UpdateParameters | src/controllers/actividad.controller.ts:165-188 | accepted exactly when the required fields are present, and otherwise rejected as a missing field. Nine values: DocenteID, Tipo, Fecha and EstudiantesAlcanzados as sent, PrepID null for Digital and as sent otherwise, the three `\|\|` defaults for the optional columns, and the id last |
| Activity.UpdateAgreesWithCreate | src/controllers/actividad.controller.ts:165-188 | update accepts every body create accepts and binds the same eight columns plus the id. It also accepts a visit without a school, which create refuses |
| Activity.RegisterActivity | src/controllers/actividad.controller.ts:25-83 | the INSERT is issued exactly when the body is accepted, with its parameter list. 400 exactly when it is not issued. 201 with the insert id on success; a store failure gets its classified status |
| Activity.UpdateActivity | src/controllers/actividad.controller.ts:159-206 | the UPDATE is issued exactly when the required fields are present. 400 exactly when it is not. No affected row gives 404, otherwise 200; a store failure gets its classified status |
| Activity.StoreFailuresAreServerErrors | src/controllers/actividad.controller.ts:71-82 | through the wrapper as written, a failed create or update is never answered 404 |
| Activity.RelationErrorsAreNotFound | src/controllers/actividad.controller.ts:196-205 | with a rethrowing wrapper, an accepted create or update that violates a foreign key is answered 404 |
| Evidence.Lower | src/controllers/evidencia.controller.ts:54 | lower-casing keeps the length and maps every character on its own |
| Evidence.LastDot | src/controllers/evidencia.controller.ts:54 | finds the last '.' of the name, or reports that it has none |
| Evidence.ExtName | src/controllers/evidencia.controller.ts:54 | the extension is empty exactly when no dot follows the first character or the name is "..". Otherwise it is a proper suffix of the name that starts with its only '.' |
| Evidence.ExtNameOfLower | src/controllers/evidencia.controller.ts:54 | taking the extension commutes with lower-casing |
| Evidence.ClassifyByLists | src/controllers/evidencia.controller.ts:56-64 | Foto exactly for the photo list, Video exactly for the video list, Documento for every other extension, so the document list changes nothing |
| Evidence.ClassificationIgnoresCase | src/controllers/evidencia.controller.ts:54-64 | a file's type does not depend on the case of its name |
| Evidence.RemoveFirstDot | src/controllers/evidencia.controller.ts:70 | `replace('.', '')` drops a leading dot and leaves a dotless string alone |
| Evidence.RegularFiles | src/controllers/evidencia.controller.ts:41-50 | keeps exactly the entries that stat reports as regular files, and no more of them than the folder has |
| Evidence.FilePositions | src/controllers/evidencia.controller.ts:41-50 | the positions of the folder's regular files: each one points to a regular file, they increase, and every regular file's position is among them |
| Evidence.RegularFilesInOrder | src/controllers/evidencia.controller.ts:41-50 | the filter keeps directory order: its k-th result is the entry at the k-th regular-file position |
| Evidence.Number | src/controllers/evidencia.controller.ts:51-77 | the k-th regular file is described with id k + 1 |
| Evidence.InsertByDate | src/controllers/evidencia.controller.ts:79 | insertion adds exactly the one element |
| Evidence.InsertKeepsNewestFirst | src/controllers/evidencia.controller.ts:79 | inserting into a newest-first list keeps it newest first |
| Evidence.SortNewestFirst | src/controllers/evidencia.controller.ts:78-79 | the sort is a permutation of its input, ordered by modification date, newest first |
| Evidence.InsertOrdered | src/controllers/evidencia.controller.ts:79 | inserting an element numbered after all others keeps the (date descending, id ascending) order |
| Evidence.SortIsStable | src/controllers/evidencia.controller.ts:79 | for input in increasing id order, files with equal dates keep their id order |
| Evidence.SortedFrom | src/controllers/evidencia.controller.ts:79 | every sorted element comes from the input |
| Evidence.SortedElementsByNumber | src/controllers/evidencia.controller.ts:67-79 | after numbering and sorting, every element is the input element at position id - 1 |
| Evidence.SortedNumberPresent | src/controllers/evidencia.controller.ts:67-79 | every number 1..n is still present after sorting |
| Evidence.SortedIdsDistinct | src/controllers/evidencia.controller.ts:67-79 | two positions of the sorted list carry different ids |
| Evidence.SortKeepsNumbering | src/controllers/evidencia.controller.ts:67-79 | sorting a list numbered 1..n keeps the ids in 1..n, each exactly once, in stable order |
| Evidence.ListingIds | src/controllers/evidencia.controller.ts:41-79 | a listing has one element per regular file, with ids 1..total, each exactly once |
| Evidence.ListingOrder | src/controllers/evidencia.controller.ts:78-79 | a listing is newest first, and equal dates keep directory order |
| Evidence.DescribedFile | src/controllers/evidencia.controller.ts:51-77 | a described file keeps its name, size and dates. Its url is "/uploads/" + name, its extension has no dot, and its type is what the dotted extension classifies to. The extension is empty when the name has none, and otherwise it is the lower-cased `path.extname` without its dot. The type is Foto exactly when the lower-cased extension is in the photo list and Video exactly when it is in the video list |
| Evidence.ListedFile | src/controllers/evidencia.controller.ts:41-77 | every listed file is a regular file of the folder with its own size and dates. Its url, extension and type follow from its name as described above: the lower-cased extension without its dot, Foto or Video exactly by the two lists |
| Evidence.WithoutMembers | src/controllers/evidencia.controller.ts:125 | after unlinking, the entries are exactly those with another name |
| Evidence.WithoutRemovesOnlyName | src/controllers/evidencia.controller.ts:125 | unlinking removes exactly that name from the folder map |
| Evidence.WithoutKeepsNamesDistinct | src/controllers/evidencia.controller.ts:125 | unlinking keeps the folder's names distinct |
| Attendance.Complete | src/controllers/asistencia.controller.ts:45 | the per-record check: ClaseID, EstudianteID, Fecha and Status are all truthy |
| Attendance.Placeholders | src/controllers/asistencia.controller.ts:39 | the `map`/`join` of one `(?, ?, ?, ?)` group per record, separated by ", " |
| Attendance.Statement | src/controllers/asistencia.controller.ts:38-41 | the INSERT prefix, the placeholder groups and the ON DUPLICATE KEY suffix |
| Attendance.Parameters | src/controllers/asistencia.controller.ts:43-49 | the four fields of each record pushed in order; its properties are `ParametersLayout` and `DecodeParameters` |
| Attendance.ApplyBatch | src/controllers/asistencia.controller.ts:40-41 | the table after the upsert, record by record on the key (ClaseID, EstudianteID); its properties are the `Upsert…` lemmas |
| StoreErrors.WrapDriverError | src/database.ts:25 | the wrapper as written: the message of the error `query` throws is always "Database query failed" |
| Activity.RequiredPresent | src/controllers/actividad.controller.ts:38 | DocenteID, Tipo and Fecha truthy, EstudiantesAlcanzados neither undefined nor null (the same test at line 166) |
| Activity.StoredPrepId | src/controllers/actividad.controller.ts:47 | `finalPrepID`: null for Digital, PrepID as sent otherwise (the same rule at line 170) |
| Activity.Columns | src/controllers/actividad.controller.ts:54-63 | the eight bound values in column order with the `\|\|` defaults; `BindsColumns` states them column by column |
| Evidence.Classify | src/controllers/evidencia.controller.ts:57-64 | the `tipoArchivo` if-chain; `ClassifyByLists` states what it decides |
| Evidence.Describe | src/controllers/evidencia.controller.ts:51-77 | the `map` callback; `DescribedFile` states its fields |
| Evidence.ListFiles | src/controllers/evidencia.controller.ts:41-79 | filter, number, sort; `ListingIds`, `ListingOrder` and `ListedFile` state the result |
| Evidence.Without | src/controllers/evidencia.controller.ts:125 | the folder's entries after `unlinkSync`; `WithoutMembers`, `WithoutRemovesOnlyName` and `WithoutKeepsNamesDistinct` state it |
| Evidence.ExistsIn | src/controllers/evidencia.controller.ts:115 | `existsSync`: the name is an entry of the folder and stat succeeds on it |
| Evidence.UploadsFolder.ListUploads | src/controllers/evidencia.controller.ts:19-100 | a missing folder is created and listed as 200 with total 0. An I/O failure gives 500 with its message. Otherwise the reply is 200 with the listing and its length, and the entries are unchanged |
| Evidence.UploadsFolder.DeleteUpload | src/controllers/evidencia.controller.ts:106-141 | a name that does not exist gives 404. An entry that is not a regular file gives 400. A name denoting the folder itself gives 400, or 404 when the folder is missing. ".." names the folder's parent and gives 400. An unlink failure gives 500. Otherwise the reply is 200 and exactly that entry is gone: the others keep their order and the folder map loses only that name |

## Left out

- Express routing, `req`/`res` and the JSON encoding are left out. A reply is a datatype with a `Status()`.
- The MySQL pool is left out. What `query` returns or throws is a parameter: the insert id, the affected rows, or the message of the thrown error. The ActividadPromocion table is not kept as state.
- Calls to the file system are left out. What `statSync`, `readdirSync`, `mkdirSync` and `unlinkSync` see or throw is the state of `UploadsFolder` plus an optional failure message. The folder's location (`__dirname`) is not modelled.
- The second `statSync` in the listing's `map` callback is not modelled separately. A file removed between the filter and the map would throw inside the `try` and give 500; the model takes one snapshot of the folder.
- The human-readable size (`formatBytes`) is left out because it uses floating-point division. Dates are integers (milliseconds).
- JSON numbers are integers here: floating point and NaN are not modelled.
- A `registros` that is not an array (an object or a string) is left out. The body's list is an `Option<seq<…>>`.
- Console logging is left out.
- JSON objects and arrays are not values of `JsValues.Value`. An object-valued field is truthy, so it is accepted or rejected as a non-empty string would be, but its binding is not modelled. A `null` element of `registros` makes line 45 throw a TypeError rather than the incomplete-record error; the model has records, not nullable elements.
- The handlers' unhandled rejection (the incomplete-record throw) is reported as the `Unhandled` reply. What Express then does with the connection is not modelled.
- Evidence.Lower: lower-cases ASCII letters only, not the full Unicode mapping of `toLowerCase`.
- Evidence.ExtName: models `path.extname` for a base name, without '/' separators.
- Evidence.UploadsFolder.DeleteUpload: a name containing '/' is excluded by its `requires`. Such a name would make `path.join` reach into a subfolder or outside the folder, and the model has no state there. The route parameter can carry one when it is percent-encoded.
- Attendance.ApplyBatch, Attendance.UpsertKeys, Attendance.UpsertLastWins: keys are compared as sent in the JSON body. MySQL coerces the INT columns of the unique key, so `1` and `"1"` are the same key there, while the model keeps two rows for them. Fecha and Status are likewise stored as sent, without the column types' conversion.
- The driver's own checks on bound values are not modelled. mysql2 rejects an undefined bind parameter (for example, an update body without PrepID), and the database rejects a value that breaks a foreign key (for example, a PrepID of 0). Both reach the handlers as a failed `query`, which the model covers as a store failure message.
- The other handlers of the same controllers (lookups, deletes, grades, teachers, students, schools) are not part of this model. The spreadsheet import described for the system is not present in these controllers.

## Findings

| source | as written | input that shows it | evidently intended | confidence | as-written member | corrected member |
|---|---|---|---|---|---|---|
| src/database.ts:23-26 | `query` catches every driver error and throws a new one with the message "Database query failed". The catch blocks' test for "Cannot add or update a child row" therefore never succeeds, and their 404 replies for an unknown ClaseID, EstudianteID, DocenteID or PrepID are dead code | a driver error "Cannot add or update a child row: a foreign key constraint fails", answered 500 | the driver's message reaches the catch blocks, which answer 404 for an unknown referenced row | high, not executed | StoreErrors.ForeignKeyReportIsLost | StoreErrors.RethrowDriverError |

The handlers take the message of the thrown error as a parameter, so they
cover both wrappers. `Attendance.StoreFailureReplies` and
`Activity.RelationErrorsAreNotFound` prove the intended 404 under
`RethrowDriverError`. `Activity.StoreFailuresAreServerErrors` proves the
500 under the wrapper as written.
