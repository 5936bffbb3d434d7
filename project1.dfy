/** project_1.py: a hospital keeping patients, doctors and appointments in three lists,
    each entity found by its id. The records are never changed once made, so they are
    values here; the hospital that appends to its lists is an object. */
module Project1 {
  import opened Common
  import opened Text
  import opened Ids

  datatype Patient = Patient(id: string, name: string, gender: string, age: string)
  datatype Doctor = Doctor(id: string, name: string, specialization: string, availableDays: string)
  datatype Appointment = Appointment(id: string, patientId: string, doctorId: string, date: string, time: string)

  function PatientId(p: Patient): string { p.id }
  function DoctorId(d: Doctor): string { d.id }
  function AppointmentId(a: Appointment): string { a.id }

  /** The ids in use in a list. */
  function Keys<T>(xs: seq<T>, key: T -> string): set<string> {
    set i | 0 <= i < |xs| :: key(xs[i])
  }

  /** The `for x in xs: if key(x) == id: return x` search. */
  function First<T>(xs: seq<T>, key: T -> string, id: string): Option<T> {
    if xs == [] then None
    else if key(xs[0]) == id then Some(xs[0])
    else First(xs[1..], key, id)
  }

  /** The search finds nothing exactly when no element has the id, and otherwise the
      first element that has it. */
  lemma {:induction false} FirstMeaning<T>(xs: seq<T>, key: T -> string, id: string)
    ensures First(xs, key, id).None? <==> id !in Keys(xs, key)
    ensures First(xs, key, id).Some? ==>
      exists i :: 0 <= i < |xs| && xs[i] == First(xs, key, id).value && key(xs[i]) == id &&
                  forall j :: 0 <= j < i ==> key(xs[j]) != id
  {
    if xs != [] {
      FirstMeaning(xs[1..], key, id);
      assert Keys(xs, key) == {key(xs[0])} + Keys(xs[1..], key) by {
        forall k | k in Keys(xs, key)
          ensures k in {key(xs[0])} + Keys(xs[1..], key)
        {
          var i :| 0 <= i < |xs| && key(xs[i]) == k;
          if i > 0 {
            assert xs[1..][i - 1] == xs[i];
          }
        }
        forall k | k in Keys(xs[1..], key)
          ensures k in Keys(xs, key)
        {
          var i :| 0 <= i < |xs[1..]| && key(xs[1..][i]) == k;
          assert xs[i + 1] == xs[1..][i];
        }
      }
      var rest := First(xs[1..], key, id);
      if key(xs[0]) != id && rest.Some? {
        var i :| 0 <= i < |xs[1..]| && xs[1..][i] == rest.value && key(xs[1..][i]) == id &&
                 forall j :: 0 <= j < i ==> key(xs[1..][j]) != id;
        assert xs[i + 1] == rest.value;
        forall j | 0 <= j < i + 1
          ensures key(xs[j]) != id
        {
          if j > 0 {
            assert xs[j] == xs[1..][j - 1];
          }
        }
      }
    }
  }

  /** Searching a list with one element appended finds what the list held first, and
      the new element only when nothing earlier has its id. */
  lemma {:induction false} FirstAfterAppend<T>(xs: seq<T>, x: T, key: T -> string, id: string)
    ensures First(xs + [x], key, id) ==
            if First(xs, key, id).Some? then First(xs, key, id)
            else if key(x) == id then Some(x) else None
  {
    if xs == [] {
      assert First([x][1..], key, id) == None;
    } else {
      assert (xs + [x])[1..] == xs[1..] + [x];
      FirstAfterAppend(xs[1..], x, key, id);
    }
  }

  class Hospital {
    var patients: seq<Patient>
    var doctors: seq<Doctor>
    var appointments: seq<Appointment>

    constructor ()
      ensures patients == [] && doctors == [] && appointments == []
    {
      patients, doctors, appointments := [], [], [];
    }

    /** `add_patient(patient)`: one more patient, at the end. */
    method AddPatient(p: Patient)
      modifies this
      ensures patients == old(patients) + [p]
      ensures doctors == old(doctors) && appointments == old(appointments)
    {
      patients := patients + [p];
    }

    /** `search_patient(patient_id)`. */
    method SearchPatient(id: string) returns (r: Option<Patient>)
      ensures r == First(patients, PatientId, id)
    {
      var i := 0;
      assert patients[i..] == patients;
      while i < |patients|
        invariant 0 <= i <= |patients|
        invariant First(patients, PatientId, id) == First(patients[i..], PatientId, id)
      {
        if patients[i].id == id {
          return Some(patients[i]);
        }
        assert patients[i..][1..] == patients[i + 1..];
        i := i + 1;
      }
      return None;
    }

    /** `add_doctor(doctor)`: one more doctor, at the end. */
    method AddDoctor(d: Doctor)
      modifies this
      ensures doctors == old(doctors) + [d]
      ensures patients == old(patients) && appointments == old(appointments)
    {
      doctors := doctors + [d];
    }

    /** `search_doctor(doctor_id)`. */
    method SearchDoctor(id: string) returns (r: Option<Doctor>)
      ensures r == First(doctors, DoctorId, id)
    {
      var i := 0;
      assert doctors[i..] == doctors;
      while i < |doctors|
        invariant 0 <= i <= |doctors|
        invariant First(doctors, DoctorId, id) == First(doctors[i..], DoctorId, id)
      {
        if doctors[i].id == id {
          return Some(doctors[i]);
        }
        assert doctors[i..][1..] == doctors[i + 1..];
        i := i + 1;
      }
      return None;
    }

    /** `book_appointment(appointment)`: appended exactly when its patient and its
        doctor are both on record; otherwise nothing changes. */
    method BookAppointment(a: Appointment) returns (booked: bool)
      modifies this
      ensures booked <==> a.patientId in Keys(old(patients), PatientId) && a.doctorId in Keys(old(doctors), DoctorId)
      ensures appointments == if booked then old(appointments) + [a] else old(appointments)
      ensures patients == old(patients) && doctors == old(doctors)
    {
      var patient := SearchPatient(a.patientId);
      var doctor := SearchDoctor(a.doctorId);
      FirstMeaning(patients, PatientId, a.patientId);
      FirstMeaning(doctors, DoctorId, a.doctorId);
      if patient.None? {
        return false;
      }
      if doctor.None? {
        return false;
      }
      appointments := appointments + [a];
      return true;
    }

    /** `generate_patient_id(hospital)`: a 4-digit number, as text, that no patient has. */
    method GeneratePatientId() returns (id: string)
      requires |Keys(patients, PatientId)| <= 8999
      ensures id !in Keys(patients, PatientId)
      ensures exists n: nat :: 1000 <= n <= 9999 && id == NatToString(n)
    {
      var n;
      id, n := FreshId("", Keys(patients, PatientId), 1000, 9999);
      assert id == NatToString(n);
    }

    /** `generate_doctor_id(hospital)`: a 4-digit number, as text, that no doctor has. */
    method GenerateDoctorId() returns (id: string)
      requires |Keys(doctors, DoctorId)| <= 8999
      ensures id !in Keys(doctors, DoctorId)
      ensures exists n: nat :: 1000 <= n <= 9999 && id == NatToString(n)
    {
      var n;
      id, n := FreshId("", Keys(doctors, DoctorId), 1000, 9999);
      assert id == NatToString(n);
    }

    /** `generate_appointment_id(hospital)`: a 4-digit number, as text, that no
        appointment has. */
    method GenerateAppointmentId() returns (id: string)
      requires |Keys(appointments, AppointmentId)| <= 8999
      ensures id !in Keys(appointments, AppointmentId)
      ensures exists n: nat :: 1000 <= n <= 9999 && id == NatToString(n)
    {
      var n;
      id, n := FreshId("", Keys(appointments, AppointmentId), 1000, 9999);
      assert id == NatToString(n);
    }
  }
}
