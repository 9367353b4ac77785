/**
  The nine request handlers of the clinic server, each a pure function from
  the store and the parsed request to the new store and the response.

  What the SQLite driver decides and the handlers cannot see is an `Env`:
  `pick` chooses which of several rows `db.get` returns, and `failAt` names
  the store call (counted from 0 within one request) that reports an error,
  if any. A statement that reports an error has written nothing.
 */
module Handlers {

  import opened Wrappers
  import opened JsValues
  import opened SqliteValues
  import opened Tables

  datatype Env = Env(pick: nat, failAt: Option<nat>)

  predicate StoreFails(env: Env, call: nat) {
    env.failAt == Some(call)
  }

  /** The columns `GET /api/doctors` selects. */
  datatype DoctorSummary = DoctorSummary(id: nat, name: Value, qualification: Value, timing: Value)

  /** Response bodies, without their message strings. */
  datatype Payload =
    | NoData
    | Created(id: nat)
    | Booked(appointmentId: nat, doctorTiming: Value)
    | DoctorList(doctors: seq<DoctorSummary>)
    | MedicineList(medicines: Table<MedicineFields>)

  datatype Response = Response(status: nat, payload: Payload)

  datatype Transition = Transition(db: Db, resp: Response)

  const OK := 200
  const CREATED := 201
  const BAD_REQUEST := 400
  const UNAUTHORIZED := 401
  const NOT_FOUND := 404
  const CONFLICT := 409
  const SERVER_ERROR := 500

  /** A response with no data; the store is left as it was. */
  function StatusOnly(db: Db, status: nat): Transition {
    Transition(db, Response(status, NoData))
  }

  // ---------------------------------------------------------------------
  // Request bodies

  datatype PatientForm = PatientForm(
    name: Value, age: Value, gender: Value, mobile: Value,
    address: Value, problemDetails: Value)

  datatype DoctorForm = DoctorForm(
    name: Value, qualification: Value, registrationNo: Value,
    timing: Value, mobile: Value)

  datatype BookingForm = BookingForm(patientMobile: Value, doctorId: Value, appointmentDate: Value)

  datatype LoginForm = LoginForm(username: Value, password: Value)

  datatype MedicineForm = MedicineForm(name: Value, manufacturer: Value, stock: Value, price: Value)

  // ---------------------------------------------------------------------
  // GET /api/doctors

  function Summary(d: Row<DoctorFields>): DoctorSummary {
    DoctorSummary(d.id, d.fields.name, d.fields.qualification, d.fields.timing)
  }

  function ListDoctors(db: Db, env: Env): (t: Transition)
    ensures t.db == db
    ensures t.resp.status == OK <==> !StoreFails(env, 0)
    ensures t.resp.status != OK ==> t.resp == Response(SERVER_ERROR, NoData)
    ensures t.resp.status == OK ==>
      && t.resp.payload.DoctorList?
      && |t.resp.payload.doctors| == |db.doctors|
      && forall i :: 0 <= i < |db.doctors| ==>
           t.resp.payload.doctors[i] == Summary(db.doctors[i])
  {
    if StoreFails(env, 0) then StatusOnly(db, SERVER_ERROR)
    else Transition(db, Response(OK, DoctorList(seq(|db.doctors|, i requires 0 <= i < |db.doctors| => Summary(db.doctors[i])))))
  }

  // ---------------------------------------------------------------------
  // POST /api/patients/register

  predicate PatientFormComplete(f: PatientForm) {
    Truthy(f.name) && Truthy(f.age) && Truthy(f.gender) && Truthy(f.mobile)
  }

  /** Whether `SELECT id FROM Patients WHERE name = ? AND mobile = ?` finds a row. */
  predicate IsDuplicate(patients: Table<PatientFields>, name: Value, mobile: Value) {
    exists i :: 0 <= i < |patients|
      && SqlEq(patients[i].fields.name, Bind(name))
      && SqlEq(patients[i].fields.mobile, Bind(mobile))
  }

  function StoredPatient(f: PatientForm): PatientFields {
    PatientFields(Bind(f.name), Bind(f.age), Bind(f.gender), Bind(f.mobile),
                  Bind(f.address), Bind(f.problemDetails))
  }

  function RegisterPatient(db: Db, f: PatientForm, env: Env): (t: Transition)
    ensures !PatientFormComplete(f) ==> t == StatusOnly(db, BAD_REQUEST)
    ensures t.resp.status == CONFLICT <==>
      PatientFormComplete(f) && !StoreFails(env, 0) && IsDuplicate(db.patients, f.name, f.mobile)
    ensures t.resp.status == CREATED <==>
      && PatientFormComplete(f) && !StoreFails(env, 0)
      && !IsDuplicate(db.patients, f.name, f.mobile) && !StoreFails(env, 1)
    ensures t.resp.status in {CREATED, BAD_REQUEST, CONFLICT, SERVER_ERROR}
    ensures t.resp.status != CREATED ==> t.db == db
    ensures t.resp.status == CREATED ==>
      && t.resp.payload.Created?
      && !HasId(db.patients, t.resp.payload.id)
      && t.db == db.(patients := db.patients + [Row(t.resp.payload.id, StoredPatient(f))])
  {
    if !PatientFormComplete(f) then StatusOnly(db, BAD_REQUEST)
    else if StoreFails(env, 0) then StatusOnly(db, SERVER_ERROR)
    else if IsDuplicate(db.patients, f.name, f.mobile) then StatusOnly(db, CONFLICT)
    else if StoreFails(env, 1) then StatusOnly(db, SERVER_ERROR)
    else
      var id := FreshId(db.patients);
      Transition(db.(patients := db.patients + [Row(id, StoredPatient(f))]),
                 Response(CREATED, Created(id)))
  }

  // ---------------------------------------------------------------------
  // POST /api/doctors/register

  predicate DoctorFormComplete(f: DoctorForm) {
    Truthy(f.name) && Truthy(f.qualification) && Truthy(f.timing)
  }

  function StoredDoctor(f: DoctorForm): DoctorFields {
    DoctorFields(Bind(f.name), Bind(f.qualification), Bind(f.registrationNo),
                 Bind(f.timing), Bind(f.mobile))
  }

  function RegisterDoctor(db: Db, f: DoctorForm, env: Env): (t: Transition)
    ensures !DoctorFormComplete(f) ==> t == StatusOnly(db, BAD_REQUEST)
    ensures t.resp.status == CREATED <==> DoctorFormComplete(f) && !StoreFails(env, 0)
    ensures t.resp.status in {CREATED, BAD_REQUEST, SERVER_ERROR}
    ensures t.resp.status != CREATED ==> t.db == db
    ensures t.resp.status == CREATED ==>
      && t.resp.payload.Created?
      && !HasId(db.doctors, t.resp.payload.id)
      && t.db == db.(doctors := db.doctors + [Row(t.resp.payload.id, StoredDoctor(f))])
  {
    if !DoctorFormComplete(f) then StatusOnly(db, BAD_REQUEST)
    else if StoreFails(env, 0) then StatusOnly(db, SERVER_ERROR)
    else
      var id := FreshId(db.doctors);
      Transition(db.(doctors := db.doctors + [Row(id, StoredDoctor(f))]),
                 Response(CREATED, Created(id)))
  }

  // ---------------------------------------------------------------------
  // POST /api/appointments/book

  predicate BookingFormComplete(f: BookingForm) {
    Truthy(f.patientMobile) && Truthy(f.doctorId) && Truthy(f.appointmentDate)
  }

  predicate HasPatientWithMobile(patients: Table<PatientFields>, mobile: Value) {
    exists i :: 0 <= i < |patients| && SqlEq(patients[i].fields.mobile, Bind(mobile))
  }

  /** The rows `SELECT id FROM Patients WHERE mobile = ?` selects, in table order. */
  function PatientsWithMobile(patients: Table<PatientFields>, mobile: Value): (r: Table<PatientFields>)
    ensures forall i :: 0 <= i < |r| ==> r[i] in patients && SqlEq(r[i].fields.mobile, Bind(mobile))
    ensures forall i :: 0 <= i < |patients| && SqlEq(patients[i].fields.mobile, Bind(mobile)) ==>
      patients[i] in r
    ensures |r| > 0 <==> HasPatientWithMobile(patients, mobile)
  {
    if |patients| == 0 then []
    else
      var rest := PatientsWithMobile(patients[1..], mobile);
      assert forall i :: 1 <= i < |patients| ==> patients[i] == patients[1..][i - 1];
      (if SqlEq(patients[0].fields.mobile, Bind(mobile)) then [patients[0]] else []) + rest
  }

  /** The patient row `db.get` hands to the callback; which one of several
      matches that is, the query does not say, so `pick` decides. */
  function ChosenPatient(patients: Table<PatientFields>, mobile: Value, pick: nat): (p: Row<PatientFields>)
    requires HasPatientWithMobile(patients, mobile)
    ensures p in patients && SqlEq(p.fields.mobile, Bind(mobile))
  {
    var matches := PatientsWithMobile(patients, mobile);
    matches[pick % |matches|]
  }

  /** Some doctor selected by the key has this timing. */
  predicate DoctorHasTiming(doctors: Table<DoctorFields>, key: Option<int>, timing: Value) {
    exists i :: 0 <= i < |doctors| && key == Some(doctors[i].id) && doctors[i].fields.timing == timing
  }

  /** Some patient with this id has a mobile equal to the requested one. */
  predicate PatientIdHasMobile(patients: Table<PatientFields>, id: nat, mobile: Value) {
    exists i :: 0 <= i < |patients| && patients[i].id == id && SqlEq(patients[i].fields.mobile, Bind(mobile))
  }

  /** The appointment row a successful booking writes. */
  predicate IsBookedRow(db: Db, f: BookingForm, a: Row<AppointmentFields>) {
    && !HasId(db.appointments, a.id)
    && PatientIdHasMobile(db.patients, a.fields.patientId, f.patientMobile)
    && a.fields.doctorId == Bind(f.doctorId)
    && a.fields.date == Bind(f.appointmentDate)
    && DoctorHasTiming(db.doctors, RowKey(f.doctorId), a.fields.time)
  }

  function BookAppointment(db: Db, f: BookingForm, env: Env): (t: Transition)
    ensures !BookingFormComplete(f) ==> t == StatusOnly(db, BAD_REQUEST)
    ensures t.resp.status == NOT_FOUND <==>
      BookingFormComplete(f) && !StoreFails(env, 0) && !HasPatientWithMobile(db.patients, f.patientMobile)
    ensures t.resp.status == CREATED <==>
      && BookingFormComplete(f) && !StoreFails(env, 0)
      && HasPatientWithMobile(db.patients, f.patientMobile) && !StoreFails(env, 1)
      && HasKey(db.doctors, RowKey(f.doctorId)) && !StoreFails(env, 2)
    ensures t.resp.status in {CREATED, BAD_REQUEST, NOT_FOUND, SERVER_ERROR}
    ensures t.resp.status != CREATED ==> t.db == db
    ensures t.resp.status == CREATED ==>
      && t.resp.payload.Booked?
      && RowAppended(db.appointments, t.db.appointments)
      && t.db == db.(appointments := t.db.appointments)
      && var a := t.db.appointments[|db.appointments|];
         && IsBookedRow(db, f, a)
         && a.id == t.resp.payload.appointmentId
         && a.fields.time == t.resp.payload.doctorTiming
  {
    if !BookingFormComplete(f) then StatusOnly(db, BAD_REQUEST)
    else if StoreFails(env, 0) then StatusOnly(db, SERVER_ERROR)
    else if !HasPatientWithMobile(db.patients, f.patientMobile) then StatusOnly(db, NOT_FOUND)
    else
      var patient := ChosenPatient(db.patients, f.patientMobile, env.pick);
      var doctor := FindByKey(db.doctors, RowKey(f.doctorId));
      if StoreFails(env, 1) || doctor.None? then StatusOnly(db, SERVER_ERROR)
      else if StoreFails(env, 2) then StatusOnly(db, SERVER_ERROR)
      else
        var timing := doctor.value.fields.timing;
        var id := FreshId(db.appointments);
        var row := Row(id, AppointmentFields(patient.id, Bind(f.doctorId), Bind(f.appointmentDate), timing));
        assert PatientIdHasMobile(db.patients, patient.id, f.patientMobile) by {
          var i :| 0 <= i < |db.patients| && db.patients[i] == patient;
        }
        assert DoctorHasTiming(db.doctors, RowKey(f.doctorId), timing) by {
          var i :| 0 <= i < |db.doctors| && db.doctors[i] == doctor.value;
        }
        Transition(db.(appointments := db.appointments + [row]),
                   Response(CREATED, Booked(id, timing)))
  }

  // ---------------------------------------------------------------------
  // POST /api/admin/login

  predicate LoginFormComplete(f: LoginForm) {
    Truthy(f.username) && Truthy(f.password)
  }

  /** Whether `SELECT * FROM Admin WHERE username = ? AND password = ?` finds a row. */
  predicate CredentialsMatch(admins: seq<Admin>, f: LoginForm) {
    exists i :: 0 <= i < |admins|
      && SqlEq(admins[i].username, Bind(f.username))
      && SqlEq(admins[i].password, Bind(f.password))
  }

  function AdminLogin(db: Db, f: LoginForm, env: Env): (t: Transition)
    ensures t.db == db
    ensures !LoginFormComplete(f) ==> t == StatusOnly(db, BAD_REQUEST)
    ensures t.resp.status == OK <==>
      LoginFormComplete(f) && !StoreFails(env, 0) && CredentialsMatch(db.admins, f)
    ensures t.resp.status == UNAUTHORIZED <==>
      LoginFormComplete(f) && !StoreFails(env, 0) && !CredentialsMatch(db.admins, f)
    ensures t.resp.status in {OK, BAD_REQUEST, UNAUTHORIZED, SERVER_ERROR}
  {
    if !LoginFormComplete(f) then StatusOnly(db, BAD_REQUEST)
    else if StoreFails(env, 0) then StatusOnly(db, SERVER_ERROR)
    else if CredentialsMatch(db.admins, f) then StatusOnly(db, OK)
    else StatusOnly(db, UNAUTHORIZED)
  }

  // ---------------------------------------------------------------------
  // GET /api/medicines

  function ListMedicines(db: Db, env: Env): (t: Transition)
    ensures t.db == db
    ensures t.resp.status == OK <==> !StoreFails(env, 0)
    ensures t.resp.status != OK ==> t.resp == Response(SERVER_ERROR, NoData)
    ensures t.resp.status == OK ==>
      t.resp.payload.MedicineList? && multiset(t.resp.payload.medicines) == multiset(db.medicines)
  {
    if StoreFails(env, 0) then StatusOnly(db, SERVER_ERROR)
    else Transition(db, Response(OK, MedicineList(db.medicines)))
  }

  // ---------------------------------------------------------------------
  // POST /api/medicines, PUT /api/medicines/:id, DELETE /api/medicines/:id

  /** `!name || stock === undefined || price === undefined` rejects the body. */
  predicate MedicineFormComplete(f: MedicineForm) {
    Truthy(f.name) && Defined(f.stock) && Defined(f.price)
  }

  function StoredMedicine(f: MedicineForm): MedicineFields {
    MedicineFields(Bind(f.name), Bind(f.manufacturer), Bind(f.stock), Bind(f.price))
  }

  function AddMedicine(db: Db, f: MedicineForm, env: Env): (t: Transition)
    ensures !MedicineFormComplete(f) ==> t == StatusOnly(db, BAD_REQUEST)
    ensures t.resp.status == CREATED <==> MedicineFormComplete(f) && !StoreFails(env, 0)
    ensures t.resp.status in {CREATED, BAD_REQUEST, SERVER_ERROR}
    ensures t.resp.status != CREATED ==> t.db == db
    ensures t.resp.status == CREATED ==>
      && t.resp.payload.Created?
      && !HasId(db.medicines, t.resp.payload.id)
      && t.db == db.(medicines := db.medicines + [Row(t.resp.payload.id, StoredMedicine(f))])
  {
    if !MedicineFormComplete(f) then StatusOnly(db, BAD_REQUEST)
    else if StoreFails(env, 0) then StatusOnly(db, SERVER_ERROR)
    else
      var id := FreshId(db.medicines);
      Transition(db.(medicines := db.medicines + [Row(id, StoredMedicine(f))]),
                 Response(CREATED, Created(id)))
  }

  /** `id` is the `:id` path segment, always a string. */
  function UpdateMedicine(db: Db, id: string, f: MedicineForm, env: Env): (t: Transition)
    ensures !MedicineFormComplete(f) ==> t == StatusOnly(db, BAD_REQUEST)
    ensures t.resp.status == NOT_FOUND <==>
      MedicineFormComplete(f) && !StoreFails(env, 0) && !HasKey(db.medicines, RowKey(Str(id)))
    ensures t.resp.status == OK <==>
      MedicineFormComplete(f) && !StoreFails(env, 0) && HasKey(db.medicines, RowKey(Str(id)))
    ensures t.resp.status in {OK, BAD_REQUEST, NOT_FOUND, SERVER_ERROR}
    ensures t.resp.status != OK ==> t.db == db
    ensures t.resp.status == OK ==>
      && t.db == db.(medicines := t.db.medicines)
      && |t.db.medicines| == |db.medicines|
      && forall i :: 0 <= i < |db.medicines| ==>
           t.db.medicines[i] ==
             if RowKey(Str(id)) == Some(db.medicines[i].id)
             then Row(db.medicines[i].id, StoredMedicine(f))
             else db.medicines[i]
  {
    if !MedicineFormComplete(f) then StatusOnly(db, BAD_REQUEST)
    else if StoreFails(env, 0) then StatusOnly(db, SERVER_ERROR)
    else
      var key := RowKey(Str(id));
      if Changes(db.medicines, key) == 0 then StatusOnly(db, NOT_FOUND)
      else
        Transition(db.(medicines := ReplaceFields(db.medicines, key, StoredMedicine(f))),
                   Response(OK, NoData))
  }

  function DeleteMedicine(db: Db, id: string, env: Env): (t: Transition)
    ensures t.resp.status == NOT_FOUND <==> !StoreFails(env, 0) && !HasKey(db.medicines, RowKey(Str(id)))
    ensures t.resp.status == OK <==> !StoreFails(env, 0) && HasKey(db.medicines, RowKey(Str(id)))
    ensures t.resp.status in {OK, NOT_FOUND, SERVER_ERROR}
    ensures t.resp.status != OK ==> t.db == db
    ensures t.resp.status == OK ==>
      && t.db == db.(medicines := t.db.medicines)
      && |t.db.medicines| < |db.medicines|
      && (forall i :: 0 <= i < |t.db.medicines| ==>
            t.db.medicines[i] in db.medicines && RowKey(Str(id)) != Some(t.db.medicines[i].id))
      && (forall i :: 0 <= i < |db.medicines| && RowKey(Str(id)) != Some(db.medicines[i].id) ==>
            db.medicines[i] in t.db.medicines)
  {
    if StoreFails(env, 0) then StatusOnly(db, SERVER_ERROR)
    else
      var key := RowKey(Str(id));
      if Changes(db.medicines, key) == 0 then StatusOnly(db, NOT_FOUND)
      else Transition(db.(medicines := DeleteRows(db.medicines, key)), Response(OK, NoData))
  }
}
