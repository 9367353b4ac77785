/**
  The server as one state machine: a request is dispatched to its handler,
  and the lemmas here state what holds of every request — failures write
  nothing, a success edits one row of one table, the store invariant is
  kept, and booked appointments are never rewritten — together with the
  booking, registration, medicine and login properties that relate a
  handler to the rows it reads.
 */
module Clinic {

  import opened Wrappers
  import opened JsValues
  import opened SqliteValues
  import opened Tables
  import opened Handlers

  datatype Request =
    | GetDoctors
    | PostPatient(patient: PatientForm)
    | PostDoctor(doctor: DoctorForm)
    | PostBooking(booking: BookingForm)
    | PostLogin(login: LoginForm)
    | GetMedicines
    | PostMedicine(medicine: MedicineForm)
    | PutMedicine(id: string, medicine: MedicineForm)
    | DeleteMedicineById(id: string)

  function Handle(db: Db, req: Request, env: Env): Transition {
    match req
    case GetDoctors => ListDoctors(db, env)
    case PostPatient(f) => RegisterPatient(db, f, env)
    case PostDoctor(f) => RegisterDoctor(db, f, env)
    case PostBooking(f) => BookAppointment(db, f, env)
    case PostLogin(f) => AdminLogin(db, f, env)
    case GetMedicines => ListMedicines(db, env)
    case PostMedicine(f) => AddMedicine(db, f, env)
    case PutMedicine(id, f) => UpdateMedicine(db, id, f, env)
    case DeleteMedicineById(id) => DeleteMedicine(db, id, env)
  }

  /** No two patients whose name and mobile are both equal under SQL `=`:
      the condition the registration's duplicate check looks for. */
  predicate NoDuplicatePatients(patients: Table<PatientFields>) {
    forall i, j :: 0 <= i < j < |patients| ==>
      !(SqlEq(patients[i].fields.name, patients[j].fields.name)
        && SqlEq(patients[i].fields.mobile, patients[j].fields.mobile))
  }

  predicate Valid(db: Db) {
    && UniqueIds(db.patients)
    && UniqueIds(db.doctors)
    && UniqueIds(db.appointments)
    && UniqueIds(db.medicines)
    && NoDuplicatePatients(db.patients)
  }

  /** The store after a request differs from the one before in at most one
      row of one table. */
  predicate OneRowOfOneTable(db: Db, db': Db) {
    || db' == db
    || (db' == db.(patients := db'.patients) && OneRowEdit(db.patients, db'.patients))
    || (db' == db.(doctors := db'.doctors) && OneRowEdit(db.doctors, db'.doctors))
    || (db' == db.(appointments := db'.appointments) && OneRowEdit(db.appointments, db'.appointments))
    || (db' == db.(medicines := db'.medicines) && OneRowEdit(db.medicines, db'.medicines))
  }

  // ---------------------------------------------------------------------
  // Every request

  /** Every error status leaves the store exactly as it was. */
  lemma FailureWritesNothing(db: Db, req: Request, env: Env)
    ensures Handle(db, req, env).resp.status >= 400 ==> Handle(db, req, env).db == db
  {
  }

  /** A request writes at most one row of one table; the Admin table is
      never written. */
  lemma HandleTouchesOneRow(db: Db, req: Request, env: Env)
    requires Valid(db)
    ensures OneRowOfOneTable(db, Handle(db, req, env).db)
    ensures Handle(db, req, env).db.admins == db.admins
  {
    var t := Handle(db, req, env);
    match req
    case PutMedicine(id, f) =>
      if t.resp.status == OK {
        ReplaceEditsOneRow(db.medicines, RowKey(Str(id)), StoredMedicine(f));
      }
    case DeleteMedicineById(id) =>
      if t.resp.status == OK {
        DeleteRemovesOneRow(db.medicines, RowKey(Str(id)));
      }
    case _ =>
  }

  lemma RegisterPatientPreservesValid(db: Db, f: PatientForm, env: Env)
    requires Valid(db)
    ensures Valid(RegisterPatient(db, f, env).db)
  {
  }

  lemma RegisterDoctorPreservesValid(db: Db, f: DoctorForm, env: Env)
    requires Valid(db)
    ensures Valid(RegisterDoctor(db, f, env).db)
  {
  }

  lemma BookAppointmentPreservesValid(db: Db, f: BookingForm, env: Env)
    requires Valid(db)
    ensures Valid(BookAppointment(db, f, env).db)
  {
  }

  lemma AddMedicinePreservesValid(db: Db, f: MedicineForm, env: Env)
    requires Valid(db)
    ensures Valid(AddMedicine(db, f, env).db)
  {
  }

  lemma DeleteMedicinePreservesValid(db: Db, id: string, env: Env)
    requires Valid(db)
    ensures Valid(DeleteMedicine(db, id, env).db)
  {
    if DeleteMedicine(db, id, env).resp.status == OK {
      var key := RowKey(Str(id));
      DeleteRemovesOneRow(db.medicines, key);
      var k :| 0 <= k < |db.medicines| && key == Some(db.medicines[k].id)
        && DeleteRows(db.medicines, key) == db.medicines[..k] + db.medicines[k + 1..];
      RemovalPreservesUniqueIds(db.medicines, k);
    }
  }

  /** Every handler keeps ids unique in every table and never lets two
      patients share a name and mobile. */
  lemma HandlePreservesValid(db: Db, req: Request, env: Env)
    requires Valid(db)
    ensures Valid(Handle(db, req, env).db)
  {
    match req
    case PostPatient(f) => RegisterPatientPreservesValid(db, f, env);
    case PostDoctor(f) => RegisterDoctorPreservesValid(db, f, env);
    case PostBooking(f) => BookAppointmentPreservesValid(db, f, env);
    case PostMedicine(f) => AddMedicinePreservesValid(db, f, env);
    case DeleteMedicineById(id) => DeleteMedicinePreservesValid(db, id, env);
    case _ =>
  }

  /** Appointments are a snapshot log: no request changes or removes a row
      already in the Appointments table, so the time copied from a doctor
      at booking stays as it was. */
  lemma AppointmentsNeverRewritten(db: Db, req: Request, env: Env)
    ensures |Handle(db, req, env).db.appointments| >= |db.appointments|
    ensures Handle(db, req, env).db.appointments[..|db.appointments|] == db.appointments
  {
  }

  // ---------------------------------------------------------------------
  // Patient registration

  /** The duplicate check keeps the (name, mobile) invariant. */
  lemma RegisterPatientKeepsNoDuplicates(db: Db, f: PatientForm, env: Env)
    requires NoDuplicatePatients(db.patients)
    ensures NoDuplicatePatients(RegisterPatient(db, f, env).db.patients)
  {
  }

  /** Registering the same (name, mobile) again is a conflict and adds no
      row, even when age, gender or the other fields differ. */
  lemma RegisterSamePatientTwice(db: Db, f: PatientForm, g: PatientForm, env1: Env, env2: Env)
    requires RegisterPatient(db, f, env1).resp.status == CREATED
    requires g.name == f.name && g.mobile == f.mobile && PatientFormComplete(g)
    requires !StoreFails(env2, 0)
    ensures
      var db1 := RegisterPatient(db, f, env1).db;
      var t := RegisterPatient(db1, g, env2);
      t.resp.status == CONFLICT && t.db == db1 && |db1.patients| == |db.patients| + 1
  {
    var db1 := RegisterPatient(db, f, env1).db;
    var k := |db.patients|;
    assert db1.patients[k].fields == StoredPatient(f);
    assert SqlEq(db1.patients[k].fields.name, Bind(g.name));
    assert IsDuplicate(db1.patients, g.name, g.mobile);
  }

  /** Truthiness decides the presence of the four required fields: an age of
      0, an empty name, gender or mobile, null or false is refused before
      the store is consulted. */
  lemma RegisterPatientRejectsFalsy(db: Db, f: PatientForm, env: Env)
    requires f.age in Falsy || f.name in Falsy || f.gender in Falsy || f.mobile in Falsy
    ensures RegisterPatient(db, f, env) == Transition(db, Response(BAD_REQUEST, NoData))
  {
  }

  // ---------------------------------------------------------------------
  // Doctor registration

  lemma RegisterDoctorRejectsFalsy(db: Db, f: DoctorForm, env: Env)
    requires f.name in Falsy || f.qualification in Falsy || f.timing in Falsy
    ensures RegisterDoctor(db, f, env) == Transition(db, Response(BAD_REQUEST, NoData))
  {
  }

  // ---------------------------------------------------------------------
  // Booking

  /** A falsy mobile, doctor id or date is refused before any lookup. */
  lemma BookingRejectsFalsy(db: Db, f: BookingForm, env: Env)
    requires f.patientMobile in Falsy || f.doctorId in Falsy || f.appointmentDate in Falsy
    ensures BookAppointment(db, f, env) == Transition(db, Response(BAD_REQUEST, NoData))
  {
  }

  /** A valid patient with a doctor id naming no doctor is a server error
      (500), not a 404, and no appointment is written. */
  lemma BookingUnknownDoctorIsServerError(db: Db, f: BookingForm, env: Env)
    requires BookingFormComplete(f) && env.failAt == None
    requires HasPatientWithMobile(db.patients, f.patientMobile)
    requires !HasKey(db.doctors, RowKey(f.doctorId))
    ensures BookAppointment(db, f, env) == Transition(db, Response(SERVER_ERROR, NoData))
  {
  }

  /** In a valid store the appointment's time is the timing of the one
      doctor with the requested id, as it was at booking. */
  lemma BookingCopiesDoctorTiming(db: Db, f: BookingForm, env: Env, k: nat)
    requires Valid(db)
    requires k < |db.doctors| && RowKey(f.doctorId) == Some(db.doctors[k].id)
    requires BookAppointment(db, f, env).resp.status == CREATED
    ensures
      var t := BookAppointment(db, f, env);
      && t.db.appointments[|db.appointments|].fields.time == db.doctors[k].fields.timing
      && t.resp.payload.doctorTiming == db.doctors[k].fields.timing
  {
  }

  /** The appointment is written for the patient row `db.get` returned. */
  lemma BookedPatientIsChosen(db: Db, f: BookingForm, env: Env)
    requires BookAppointment(db, f, env).resp.status == CREATED
    ensures
      var t := BookAppointment(db, f, env);
      t.db.appointments[|db.appointments|].fields.patientId
        == ChosenPatient(db.patients, f.patientMobile, env.pick).id
  {
  }

  /** Under this choice of patient row the booking succeeds for the patient
      with this id. */
  predicate BooksPatient(db: Db, f: BookingForm, pick: nat, id: nat) {
    var t := BookAppointment(db, f, Env(pick, None));
    t.resp.status == CREATED && t.db.appointments[|db.appointments|].fields.patientId == id
  }

  /** Which of several patients sharing a mobile is booked is not fixed:
      each of them is the one booked under some choice of the driver. */
  lemma BookingMayChooseAnyMatchingPatient(db: Db, f: BookingForm, k: nat)
    requires BookingFormComplete(f)
    requires k < |db.patients| && SqlEq(db.patients[k].fields.mobile, Bind(f.patientMobile))
    requires HasKey(db.doctors, RowKey(f.doctorId))
    ensures exists pick: nat :: BooksPatient(db, f, pick, db.patients[k].id)
  {
    var matches := PatientsWithMobile(db.patients, f.patientMobile);
    assert db.patients[k] in matches;
    var pick :| 0 <= pick < |matches| && matches[pick] == db.patients[k];
    ChosenPatientAt(db.patients, f.patientMobile, pick);
    assert HasPatientWithMobile(db.patients, f.patientMobile);
    assert BookAppointment(db, f, Env(pick, None)).resp.status == CREATED;
    BookedPatientIsChosen(db, f, Env(pick, None));
    assert BooksPatient(db, f, pick, db.patients[k].id);
  }

  lemma ChosenPatientAt(patients: Table<PatientFields>, mobile: Value, pick: nat)
    requires pick < |PatientsWithMobile(patients, mobile)|
    ensures HasPatientWithMobile(patients, mobile)
    ensures ChosenPatient(patients, mobile, pick) == PatientsWithMobile(patients, mobile)[pick]
  {
    ModOfSmaller(pick, |PatientsWithMobile(patients, mobile)|);
  }

  lemma ModOfSmaller(a: nat, n: nat)
    requires a < n
    ensures a % n == a
  {
  }

  // ---------------------------------------------------------------------
  // Admin login

  /** Login succeeds exactly when some Admin row holds both the username and
      the password as given; it never writes. */
  lemma AdminLoginIsExactMatch(db: Db, f: LoginForm)
    requires LoginFormComplete(f)
    ensures
      var t := AdminLogin(db, f, Env(0, None));
      && t.db == db
      && (t.resp.status == OK <==>
            exists i :: 0 <= i < |db.admins|
              && db.admins[i].username == Bind(f.username)
              && db.admins[i].password == Bind(f.password))
      && (t.resp.status != OK ==> t.resp.status == UNAUTHORIZED)
  {
  }

  // ---------------------------------------------------------------------
  // Medicines

  /** Create and update test stock and price only against `undefined`: 0 and
      null pass, while a falsy name is refused. */
  lemma MedicineValidation(f: MedicineForm)
    ensures !Truthy(f.name) ==> !MedicineFormComplete(f)
    ensures Truthy(f.name) && f.stock in {Int(0), Null} && f.price in {Int(0), Null} ==> MedicineFormComplete(f)
    ensures f.stock == Undefined || f.price == Undefined ==> !MedicineFormComplete(f)
  {
  }

  /** In a valid store a successful update rewrites exactly the row with the
      requested id, keeping that id, and no other row. */
  lemma UpdateRewritesExactlyThatRow(db: Db, id: string, f: MedicineForm, env: Env)
    requires Valid(db)
    requires UpdateMedicine(db, id, f, env).resp.status == OK
    ensures
      var ms := UpdateMedicine(db, id, f, env).db.medicines;
      exists k :: 0 <= k < |db.medicines| && RowKey(Str(id)) == Some(db.medicines[k].id)
        && ms == db.medicines[k := Row(db.medicines[k].id, StoredMedicine(f))]
  {
  }

  /** In a valid store a successful delete removes exactly the row with the
      requested id and keeps the others in order. */
  lemma DeleteRemovesExactlyThatRow(db: Db, id: string, env: Env)
    requires Valid(db)
    requires DeleteMedicine(db, id, env).resp.status == OK
    ensures
      var ms := DeleteMedicine(db, id, env).db.medicines;
      exists k :: 0 <= k < |db.medicines| && RowKey(Str(id)) == Some(db.medicines[k].id)
        && ms == db.medicines[..k] + db.medicines[k + 1..]
  {
    DeleteRemovesOneRow(db.medicines, RowKey(Str(id)));
  }

  /** `PUT /api/medicines/<n>` and `DELETE /api/medicines/<n>` address the
      medicine whose id is n. */
  lemma DecimalPathSelectsId(db: Db, k: nat)
    requires k < |db.medicines|
    ensures HasKey(db.medicines, RowKey(Str(DecimalString(db.medicines[k].id))))
  {
    RowKeyOfDecimalString(db.medicines[k].id);
  }

  // ---------------------------------------------------------------------
  // A worked scenario

  /** Register a patient, book with that patient's mobile and a doctor whose
      timing is "9am-1pm", then register the same patient again. */
  lemma RegisterBookReregister()
    ensures
      var doctor := Row(1, DoctorFields(Str("Dr. Rao"), Str("MBBS"), Null, Str("9am-1pm"), Null));
      var db0 := Db([], [doctor], [], [], []);
      var asha := PatientForm(Str("Asha"), Int(30), Str("F"), Str("9990001111"), Undefined, Undefined);
      var env := Env(0, None);
      var t1 := RegisterPatient(db0, asha, env);
      var t2 := BookAppointment(t1.db, BookingForm(Str("9990001111"), Int(1), Str("2024-05-01")), env);
      var t3 := RegisterPatient(t2.db, asha, env);
      && t1.resp == Response(CREATED, Created(1))
      && t2.resp == Response(CREATED, Booked(1, Str("9am-1pm")))
      && t3.resp.status == CONFLICT && t3.db == t2.db
  {
    var doctor := Row(1, DoctorFields(Str("Dr. Rao"), Str("MBBS"), Null, Str("9am-1pm"), Null));
    var db0 := Db([], [doctor], [], [], []);
    var asha := PatientForm(Str("Asha"), Int(30), Str("F"), Str("9990001111"), Undefined, Undefined);
    var env := Env(0, None);
    var t1 := RegisterPatient(db0, asha, env);
    assert t1.db.patients == [Row(1, StoredPatient(asha))];
    var f := BookingForm(Str("9990001111"), Int(1), Str("2024-05-01"));
    assert PatientsWithMobile(t1.db.patients, f.patientMobile) == t1.db.patients;
    var t2 := BookAppointment(t1.db, f, env);
    assert t2.db.patients == t1.db.patients;
    assert IsDuplicate(t2.db.patients, asha.name, asha.mobile);
  }
}
