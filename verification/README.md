# Clinic server request handlers, modelled in Dafny

This project models the request-handling layer of a small clinic-management
server (`server.js`). The server is an Express application over an SQLite
database with five tables: Patients, Doctors, Appointments, Admin and
Medicines. Nine handlers make up its API:

- list doctors;
- register a patient;
- register a doctor;
- book an appointment;
- admin login;
- list, add, update and delete medicines.

Each handler is modelled as a pure function from the store and the request
body to the new store and the response (status code and payload):
`(Db, Form, Env) -> Transition`.

## Files

- `wrappers.dfy`: `Option`.
- `js_values.dfy`: request field values (`Undefined | Null | Bool | Int | Str`).
  It also defines the two presence tests the handlers use: JavaScript
  truthiness (`!x`) and `x === undefined`.
- `sqlite_values.dfy`: how node-sqlite3 binds a JavaScript value.
  `undefined` becomes NULL and booleans become 1/0. Also SQL `=`, where
  NULL matches nothing. Also how a text parameter such as the `:id` path
  segment is converted when compared with the integer `id` column.
- `tables.dfy`: rows `Row(id, fields)`, tables, the `Db`, and the SQL
  statements the handlers issue. These are INSERT with a fresh id,
  `SELECT … WHERE id = ?`, UPDATE and DELETE by id, and the `changes`
  count.
- `handlers.dfy`: the nine handlers.
- `clinic.dfy`: the dispatcher `Handle` over all requests, the store
  invariant `Valid`, and the lemmas that relate several calls or hold for
  every request.

## What the driver decides: `Env`

Two things the handlers do not control are passed in as an `Env`:

- `pick` chooses which row `db.get` returns when several patients share a
  mobile. The query has no ORDER BY.
  `Clinic.BookingMayChooseAnyMatchingPatient` proves that every matching
  patient can be the one chosen, so the model fixes no choice.
- `failAt` names the store call, counted from 0 within the request, on
  which SQLite reports an error. That call answers 500 and writes nothing.

New ids are computed as max + 1, which is what SQLite does for a rowid
table. Contracts promise only that the id is fresh, meaning no row of that
table already has it.

## Behaviour of the code worth noting

- A booking whose `doctor_id` names no doctor answers 500. The missing doctor is handled in the same branch as a store error (`server.js:129-131`).
- Medicine create and update reject only a falsy `name` and an `undefined` `stock` or `price`. So a stock or price of `0`, `null` or a negative number is accepted (`server.js:183`, `server.js:199`).
- Medicine update writes all four columns. A body without `manufacturer` therefore sets it to NULL (`server.js:202-203`).
- Admin login answers 500 on a store error, a fifth outcome beside 200, 400 and 401 (`server.js:157-159`).
- Booking takes whichever patient row the mobile lookup returns (`server.js:116-125`). Registration prevents only two patients sharing both name and mobile (`server.js:72-79`), so several patients may share a mobile.

## Model

| member | source | states |
|---|---|---|
| JsValues.TruthyIffNotFalsy | server.js:67 | a field passes `!x` exactly when it is not undefined, null, false, 0 or "" |
| JsValues.DefinedIsWeakerThanTruthy | server.js:183 | every truthy value passes `=== undefined`; the values that pass it but are falsy are exactly null, false, 0 and "" |
| SqliteValues.Bind | server.js:83 | a bound parameter is never undefined or a boolean, keeps its truthiness, is NULL exactly for null/undefined, and strings and integers keep their value |
| SqliteValues.SqlEqTruthyParam | server.js:155 | against a truthy parameter, SQL `=` is plain equality with the bound value |
| SqliteValues.RowKey | server.js:197-203 | an integer parameter selects its own id; null, undefined and "" select no row; a converted text or boolean key is never negative |
| SqliteValues.RowKeyOfDecimalString | server.js:197-203 | the decimal spelling of an id in the path selects exactly that id |
| Tables.FreshId | server.js:87 | the id given to an inserted row is positive and larger than every id in the table, hence held by no row |
| Tables.FindByKey | server.js:128-131 | the doctor lookup finds a row exactly when some row has the key, and the row it returns is in the table and has that id |
| Tables.Changes | server.js:207 | the reported count of affected rows is zero exactly when no row has the key |
| Tables.ChangesAtMostOne | server.js:202-207 | with unique ids, an UPDATE or DELETE by id affects at most one row |
| Tables.ReplaceFields | server.js:202 | the UPDATE keeps the length and every id, gives every selected row the new columns, and leaves every other row as it was |
| Tables.DeleteRows | server.js:217 | the DELETE shortens the table by the number of selected rows, keeps only unselected rows, and keeps every one of them |
| Tables.DeleteRemovesOneRow | server.js:217-225 | with unique ids, a DELETE that selects a row removes exactly that row and keeps the others in order |
| Handlers.ListDoctors | server.js:52-60 | the store is unchanged; 200 with the id, name, qualification and timing of every doctor in table order, or 500 on a store error |
| Handlers.RegisterPatient | server.js:63-90 | 400 for a falsy name, age, gender or mobile; 409 exactly when a row has the same name and mobile; 201 otherwise unless the store fails; only 201 writes, and it appends one patient with a fresh id, which the response carries |
| Handlers.RegisterDoctor | server.js:93-105 | 400 for a falsy name, qualification or timing; otherwise 201 with one doctor of fresh id appended, or 500 with no write |
| Handlers.PatientsWithMobile | server.js:116 | the patient query returns patient rows with the requested mobile, returns every such row, and is non-empty exactly when some patient has that mobile |
| Handlers.ChosenPatient | server.js:116-125 | the patient the booking uses is a row of the table whose mobile equals the requested one |
| Handlers.BookAppointment | server.js:108-147 | 400 for a falsy mobile, doctor id or date, before any lookup; 404 exactly when no patient has the mobile; 201 exactly when one does and the doctor id names a doctor; on 201 one appointment is appended and nothing else changes; that appointment has a fresh id, a patient with the mobile, the given doctor id and date, and as its time the timing of a doctor with that id, which the response returns; every other status leaves the store unchanged |
| Handlers.AdminLogin | server.js:150-166 | the store is never written; 400 for a falsy username or password; 200 exactly when an Admin row matches both, 401 exactly when none does |
| Handlers.ListMedicines | server.js:171-178 | the store is unchanged; 200 lists every medicine row exactly as many times as it occurs, or 500 |
| Handlers.AddMedicine | server.js:181-193 | 400 for a falsy name or an undefined stock or price; otherwise 201 with one medicine of fresh id appended, or 500 with no write |
| Handlers.UpdateMedicine | server.js:196-212 | 400 as for create; 404 exactly when no row has the path id, with the store unchanged; on 200 only the Medicines table changes, its length is kept, and exactly the rows with that id get the new name, manufacturer, stock and price |
| Handlers.DeleteMedicine | server.js:215-227 | 404 exactly when no row has the path id, with the store unchanged; on 200 only the Medicines table changes, and it keeps exactly the rows without that id and fewer rows |
| Clinic.FailureWritesNothing | server.js:67-227 | every response with status 400 or above leaves the whole store unchanged |
| Clinic.HandleTouchesOneRow | server.js:63-227 | in a valid store every request changes at most one row of one table (an append, an in-place rewrite or a removal), and never the Admin table |
| Clinic.HandlePreservesValid | server.js:63-227 | every request keeps ids unique in each table and keeps any two patients from sharing both name and mobile |
| Clinic.RegisterPatientPreservesValid | server.js:63-90 | patient registration keeps the store invariant |
| Clinic.RegisterDoctorPreservesValid | server.js:93-105 | doctor registration keeps the store invariant |
| Clinic.BookAppointmentPreservesValid | server.js:108-147 | booking keeps the store invariant |
| Clinic.AddMedicinePreservesValid | server.js:181-193 | adding a medicine keeps the store invariant |
| Clinic.DeleteMedicinePreservesValid | server.js:215-227 | deleting a medicine keeps the store invariant |
| Clinic.AppointmentsNeverRewritten | server.js:133-143 | no request changes or removes an existing appointment; the Appointments table only grows at its end |
| Clinic.RegisterPatientKeepsNoDuplicates | server.js:72-87 | patient registration preserves "no two patients share (name, mobile)" |
| Clinic.RegisterSamePatientTwice | server.js:72-79 | after a successful registration, registering the same name and mobile again answers 409 and adds no second row |
| Clinic.RegisterPatientRejectsFalsy | server.js:67-69 | an age of 0 or an empty, null, false or missing name, gender or mobile gives 400 and leaves the store unchanged |
| Clinic.RegisterDoctorRejectsFalsy | server.js:95-97 | a falsy name, qualification or timing gives 400 and leaves the store unchanged |
| Clinic.BookingRejectsFalsy | server.js:111-113 | a falsy mobile, doctor id or date gives 400 and leaves the store unchanged |
| Clinic.BookingUnknownDoctorIsServerError | server.js:128-131 | a known patient with a doctor id naming no doctor gives 500, not 404, and writes nothing |
| Clinic.BookingCopiesDoctorTiming | server.js:128-142 | in a valid store the new appointment's time and the returned timing equal the timing of the one doctor with the requested id |
| Clinic.BookingMayChooseAnyMatchingPatient | server.js:116-125 | every patient with the requested mobile is the one booked under some choice of the driver |
| Clinic.AdminLoginIsExactMatch | server.js:152-164 | with both fields present and no store error, login answers 200 exactly when some Admin row equals both username and password, and otherwise 401 |
| Clinic.MedicineValidation | server.js:183 | a falsy name is refused; stock and price of 0 or null are accepted; an undefined stock or price is refused |
| Clinic.UpdateRewritesExactlyThatRow | server.js:202-210 | in a valid store a successful update equals the table with the one row of that id given the new columns |
| Clinic.DeleteRemovesExactlyThatRow | server.js:217-225 | in a valid store a successful delete equals the table with the one row of that id cut out |
| Clinic.DecimalPathSelectsId | server.js:196-203 | a path `/api/medicines/<n>` with n an existing medicine's id selects a row |
| Clinic.RegisterBookReregister | server.js:63-147 | on a store holding one doctor: register Asha (201, id 1), book by her mobile with doctor 1 ("9am-1pm") (201, that timing), register Asha again (409, nothing written) |

## Left out

- Express wiring, CORS, body parsing, static files and `app.listen` (`server.js:8-17`, `server.js:231-233`). These are framework plumbing. The request body is taken as already parsed into fields.
- Opening the database, bootstrapping it from `schema.sql`, and closing it on SIGINT (`server.js:20-47`, `server.js:236-244`). These are file and process I/O. `schema.sql` is not part of this model. No NOT NULL, UNIQUE or foreign-key constraint is assumed. The only assumption is that `id` is the integer rowid, which `this.lastID` returns.
- Response message strings, and the error text of store failures.
- SqliteValues.Bind: does not distinguish integer from REAL binding. node-sqlite3 binds a JavaScript number as an INTEGER only when it fits in 32 bits, and binds larger numbers as REAL. That covers a 10-digit mobile, or an age, stock, price or `doctor_id` of 2^31 or more. The model keeps such a number as `Int`, with the same value. SQL `=` between equal numbers holds either way.
- Handlers.ListDoctors: assumes the rows come back in table order. `SELECT … FROM Doctors` (`server.js:53`) has no ORDER BY. The model uses SQLite's plain table scan, which for tables built by appends is ascending id.
- Handlers.ListMedicines: does not model the `ORDER BY name` ordering. The contract states the listed rows as a multiset, not their order.
- SqliteValues.RowKey: recognises only unsigned decimal digit strings as numeric text. SQLite would also convert a text key with a sign, surrounding spaces or a form like "5.0". The model makes such a key select no row.
- Column type affinity on the text columns (name, mobile, username, password) is not modelled. A parameter matches a stored value only when the bound values are equal, so the integer 5 does not match the text "5".
- Arrays and objects in a request body are not modelled. A JSON or `extended` urlencoded body can carry them, and they are truthy; node-sqlite3 binds them as their string form. The `Value` domain has only undefined, null, booleans, integers and strings.
- Floating-point numbers: request numbers are integers (`price` included). NaN, -0 and BigInt, which are also falsy in JavaScript, cannot occur.
- Concurrent interleaving of the callbacks of different requests is not modelled. The model handles one request at a time. Two bookings of the same slot both succeed, just as they would one after the other.
- The exact ids SQLite assigns. The model uses max + 1, and contracts state only freshness.
