/**
  The clinic's relational store as immutable values. Every table except
  Admin is a sequence of rows, each an integer id with the row's other
  columns; the operations here are the SQL statements the handlers issue,
  stated over any such table.
 */
module Tables {

  import opened Wrappers
  import opened JsValues

  datatype Row<R> = Row(id: nat, fields: R)

  type Table<R> = seq<Row<R>>

  datatype PatientFields = PatientFields(
    name: Value, age: Value, gender: Value, mobile: Value,
    address: Value, problemDetails: Value)

  datatype DoctorFields = DoctorFields(
    name: Value, qualification: Value, registrationNo: Value,
    timing: Value, mobile: Value)

  /** `time` is a copy of the doctor's timing taken when the row is written. */
  datatype AppointmentFields = AppointmentFields(
    patientId: nat, doctorId: Value, date: Value, time: Value)

  datatype MedicineFields = MedicineFields(
    name: Value, manufacturer: Value, stock: Value, price: Value)

  datatype Admin = Admin(username: Value, password: Value)

  datatype Db = Db(
    patients: Table<PatientFields>,
    doctors: Table<DoctorFields>,
    appointments: Table<AppointmentFields>,
    admins: seq<Admin>,
    medicines: Table<MedicineFields>)

  // ---------------------------------------------------------------------
  // Ids

  predicate HasId<R>(t: Table<R>, id: nat) {
    exists i :: 0 <= i < |t| && t[i].id == id
  }

  /** Whether `WHERE id = ?` with this key selects some row. */
  predicate HasKey<R>(t: Table<R>, key: Option<int>) {
    exists i :: 0 <= i < |t| && key == Some(t[i].id)
  }

  predicate UniqueIds<R>(t: Table<R>) {
    forall i, j :: 0 <= i < j < |t| ==> t[i].id != t[j].id
  }

  function MaxId<R>(t: Table<R>): (m: nat)
    ensures forall i :: 0 <= i < |t| ==> t[i].id <= m
    ensures m == 0 || HasId(t, m)
  {
    if |t| == 0 then 0
    else
      var m := MaxId(t[1..]);
      assert m != 0 ==> exists i :: 0 < i < |t| && t[i].id == m by {
        if m != 0 {
          var k :| 0 <= k < |t[1..]| && t[1..][k].id == m;
          assert t[k + 1].id == m;
        }
      }
      if t[0].id > m then t[0].id else m
  }

  /** The id SQLite assigns to an inserted row. Only its freshness is relied
      on; max + 1 is what SQLite does for a rowid table. */
  function FreshId<R>(t: Table<R>): (id: nat)
    ensures id > 0 && !HasId(t, id)
    ensures forall i :: 0 <= i < |t| ==> t[i].id < id
  {
    MaxId(t) + 1
  }

  // ---------------------------------------------------------------------
  // Statements selecting rows by id

  /** `SELECT ... WHERE id = ?` through `db.get`: the first matching row. */
  function FindByKey<R>(t: Table<R>, key: Option<int>): (r: Option<Row<R>>)
    ensures r.Some? <==> HasKey(t, key)
    ensures r.Some? ==> r.value in t && key == Some(r.value.id)
  {
    if |t| == 0 then None
    else if key == Some(t[0].id) then Some(t[0])
    else
      var r := FindByKey(t[1..], key);
      assert HasKey(t, key) ==> HasKey(t[1..], key) by {
        if HasKey(t, key) {
          var i :| 0 <= i < |t| && key == Some(t[i].id);
          assert t[1..][i - 1] == t[i];
        }
      }
      r
  }

  /** The number of rows `WHERE id = ?` selects: what `this.changes` reports
      after an UPDATE or DELETE with that clause. */
  function Changes<R>(t: Table<R>, key: Option<int>): (n: nat)
    ensures n <= |t|
    ensures n == 0 <==> !HasKey(t, key)
  {
    if |t| == 0 then 0
    else
      var n := Changes(t[1..], key);
      assert HasKey(t, key) <==> key == Some(t[0].id) || HasKey(t[1..], key) by {
        if HasKey(t[1..], key) {
          var i :| 0 <= i < |t[1..]| && key == Some(t[1..][i].id);
          assert t[i + 1] == t[1..][i];
        }
        if HasKey(t, key) && key != Some(t[0].id) {
          var i :| 0 <= i < |t| && key == Some(t[i].id);
          assert t[1..][i - 1] == t[i];
        }
      }
      (if key == Some(t[0].id) then 1 else 0) + n
  }

  /** With unique ids, `WHERE id = ?` never selects more than one row. */
  lemma {:induction false} ChangesAtMostOne<R>(t: Table<R>, key: Option<int>)
    requires UniqueIds(t)
    ensures Changes(t, key) <= 1
  {
    if |t| > 0 {
      ChangesAtMostOne(t[1..], key);
    }
  }

  /** `UPDATE ... SET <all columns> WHERE id = ?`. */
  function ReplaceFields<R>(t: Table<R>, key: Option<int>, fields: R): (t': Table<R>)
    ensures |t'| == |t|
    ensures forall i :: 0 <= i < |t| ==> t'[i].id == t[i].id
    ensures forall i :: 0 <= i < |t| && key == Some(t[i].id) ==> t'[i].fields == fields
    ensures forall i :: 0 <= i < |t| && key != Some(t[i].id) ==> t'[i] == t[i]
  {
    if |t| == 0 then []
    else
      [if key == Some(t[0].id) then Row(t[0].id, fields) else t[0]]
      + ReplaceFields(t[1..], key, fields)
  }

  /** `DELETE ... WHERE id = ?`: keeps, in order, the rows the clause does
      not select. */
  function DeleteRows<R>(t: Table<R>, key: Option<int>): (t': Table<R>)
    ensures |t'| + Changes(t, key) == |t|
    ensures forall i :: 0 <= i < |t'| ==> t'[i] in t && key != Some(t'[i].id)
    ensures forall i :: 0 <= i < |t| && key != Some(t[i].id) ==> t[i] in t'
  {
    if |t| == 0 then []
    else
      (if key == Some(t[0].id) then [] else [t[0]]) + DeleteRows(t[1..], key)
  }

  lemma {:induction false} DeleteNothing<R>(t: Table<R>, key: Option<int>)
    requires !HasKey(t, key)
    ensures DeleteRows(t, key) == t
  {
    if |t| > 0 {
      DeleteNothing(t[1..], key);
      assert t == [t[0]] + t[1..];
    }
  }

  /** With unique ids, a DELETE that selects a row removes exactly that row
      and keeps every other row in place. */
  lemma {:induction false} DeleteRemovesOneRow<R>(t: Table<R>, key: Option<int>)
    requires UniqueIds(t) && HasKey(t, key)
    ensures exists i :: 0 <= i < |t| && key == Some(t[i].id) && DeleteRows(t, key) == t[..i] + t[i + 1..]
  {
    if key == Some(t[0].id) {
      DeleteNothing(t[1..], key);
      assert DeleteRows(t, key) == t[..0] + t[1..];
    } else {
      assert HasKey(t[1..], key) by {
        var i :| 0 <= i < |t| && key == Some(t[i].id);
        assert t[1..][i - 1] == t[i];
      }
      DeleteRemovesOneRow(t[1..], key);
      var i :| 0 <= i < |t[1..]| && key == Some(t[1..][i].id)
        && DeleteRows(t[1..], key) == t[1..][..i] + t[1..][i + 1..];
      ShiftRemoval(t, i);
      assert DeleteRows(t, key) == [t[0]] + DeleteRows(t[1..], key);
    }
  }

  /** With unique ids, the UPDATE of a selected key rewrites exactly one row. */
  lemma ReplaceEditsOneRow<R>(t: Table<R>, key: Option<int>, fields: R)
    requires UniqueIds(t) && HasKey(t, key)
    ensures RowReplaced(t, ReplaceFields(t, key, fields))
  {
  }

  /** Removing a row keeps ids unique. */
  lemma RemovalPreservesUniqueIds<R>(t: Table<R>, k: nat)
    requires UniqueIds(t) && k < |t|
    ensures UniqueIds(t[..k] + t[k + 1..])
  {
  }

  /** Removing index i of the tail is removing index i + 1 of the table. */
  lemma ShiftRemoval<R>(t: Table<R>, i: nat)
    requires i + 1 < |t|
    ensures [t[0]] + (t[1..][..i] + t[1..][i + 1..]) == t[..i + 1] + t[i + 2..]
  {
  }

  // ---------------------------------------------------------------------
  // Shapes of a change to one table

  /** One row appended, the others unchanged. */
  predicate RowAppended<R(==)>(t: Table<R>, t': Table<R>) {
    |t'| == |t| + 1 && t'[..|t|] == t
  }

  /** One row's columns other than the id replaced, the others unchanged. */
  predicate RowReplaced<R(==)>(t: Table<R>, t': Table<R>) {
    && |t'| == |t|
    && exists i :: 0 <= i < |t| && t'[i].id == t[i].id
         && forall j :: 0 <= j < |t| && j != i ==> t'[j] == t[j]
  }

  /** One row removed, the others kept in order. */
  predicate RowRemoved<R(==)>(t: Table<R>, t': Table<R>) {
    exists i :: 0 <= i < |t| && t' == t[..i] + t[i + 1..]
  }

  predicate OneRowEdit<R(==)>(t: Table<R>, t': Table<R>) {
    RowAppended(t, t') || RowReplaced(t, t') || RowRemoved(t, t')
  }
}
