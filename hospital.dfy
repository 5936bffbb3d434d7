/** hospital.py: users, doctors with their free time slots, patients with a medical
    history, appointments and prescriptions, kept in four module-level dicts keyed by
    username or by the id typed in. A doctor and a patient are users; here each holds
    its `User` as `account`. */
module Hospital {
  import opened Common
  import opened PyValue
  import Text

  /** What a `from_dict` raises on (`KeyError`), or a value of a kind the model does
      not store in that field. */
  datatype DictError = MissingKey(key: string) | NotText(key: string) | NotList(key: string) | BadMedication(index: nat)

  /** `data[key]` where the field holds text. */
  function TextAt(data: map<string, Value>, key: string): (r: Result<string, DictError>)
    ensures r.Ok? <==> key in data && data[key].Str?
    ensures r.Ok? ==> data[key] == Str(r.value)
    ensures r.Err? ==> r.error == if key in data then NotText(key) else MissingKey(key)
  {
    if key !in data then Err(MissingKey(key))
    else if !data[key].Str? then Err(NotText(key))
    else Ok(data[key].s)
  }

  /** Every one of `keys` is present and holds text. */
  predicate HoldsText(data: map<string, Value>, keys: seq<string>) {
    forall k :: k in keys ==> k in data && data[k].Str?
  }

  class User {
    var username: string
    var password: string
    var contactInfo: string

    constructor (username: string, password: string, contactInfo: string)
      ensures this.username == username && this.password == password && this.contactInfo == contactInfo
    {
      this.username, this.password, this.contactInfo := username, password, contactInfo;
    }

    /** `update_contact_info(new_contact_info)`: the login stays as it was. */
    method UpdateContactInfo(newContactInfo: string)
      modifies this
      ensures contactInfo == newContactInfo
      ensures username == old(username) && password == old(password)
      ensures forall given :: Authenticate(given) == old(Authenticate(given))
    {
      contactInfo := newContactInfo;
    }

    /** `authenticate(password)`. */
    function Authenticate(given: string): (ok: bool)
      reads this
      ensures ok <==> given == password
    {
      password == given
    }
  }

  /** `availability` after `add_availability(date, time_slots)`: the slots go after
      those the date already has, or become its slots. */
  function WithSlots(availability: map<string, seq<string>>, date: string, slots: seq<string>): (r: map<string, seq<string>>)
    ensures r.Keys == availability.Keys + {date}
    ensures date in availability ==> r[date] == availability[date] + slots
    ensures date !in availability ==> r[date] == slots
    ensures forall d :: d in availability && d != date ==> r[d] == availability[d]
  {
    if date in availability then availability[date := availability[date] + slots] else availability[date := slots]
  }

  /** Adding slots twice is adding both lists at once. */
  lemma WithSlotsTwice(availability: map<string, seq<string>>, date: string, first: seq<string>, second: seq<string>)
    ensures WithSlots(WithSlots(availability, date, first), date, second) == WithSlots(availability, date, first + second)
  {
    if date in availability {
      assert availability[date] + first + second == availability[date] + (first + second);
    }
  }

  class Doctor {
    const account: User
    var name: string
    var specialty: string
    var availability: map<string, seq<string>>

    constructor (username: string, password: string, contactInfo: string, name: string, specialty: string)
      ensures fresh(account) && account.username == username && account.password == password
      ensures account.contactInfo == contactInfo
      ensures this.name == name && this.specialty == specialty && availability == map[]
    {
      account := new User(username, password, contactInfo);
      this.name, this.specialty := name, specialty;
      availability := map[];
    }

    /** `add_availability(date, time_slots)`. */
    method AddAvailability(date: string, slots: seq<string>)
      modifies this
      ensures availability == WithSlots(old(availability), date, slots)
      ensures name == old(name) && specialty == old(specialty)
    {
      if date in availability {
        availability := availability[date := availability[date] + slots];
      } else {
        availability := availability[date := slots];
      }
    }

    /** `update_availability(date, new_time_slots)`: the date's slots are replaced, the
        other dates keep theirs. */
    method UpdateAvailability(date: string, slots: seq<string>)
      modifies this
      ensures availability.Keys == old(availability).Keys + {date} && availability[date] == slots
      ensures forall d :: d in old(availability) && d != date ==> availability[d] == old(availability)[d]
      ensures name == old(name) && specialty == old(specialty)
    {
      availability := availability[date := slots];
    }
  }

  /** What `Patient.to_dict` writes: the three account fields, the name and age (any
      value, `None` by default) and the medical history list. */
  datatype PatientData = PatientData(username: string, password: string, contactInfo: string,
                                     name: Value, age: Value, history: seq<Value>)

  function PatientToDict(p: PatientData): map<string, Value> {
    map["username" := Str(p.username), "password" := Str(p.password), "contact_info" := Str(p.contactInfo),
        "name" := p.name, "age" := p.age, "medical_history" := List(p.history)]
  }

  /** `Patient.from_dict(data)`: username, password and contact info must be present;
      a missing name or age reads as `None` and a missing history as empty. */
  function PatientFromDict(data: map<string, Value>): (r: Result<PatientData, DictError>)
    ensures r.Ok? ==> "username" in data && "password" in data && "contact_info" in data
    ensures r.Ok? ==> r.value.name == (if "name" in data then data["name"] else Null)
    ensures r.Ok? ==> r.value.age == (if "age" in data then data["age"] else Null)
    ensures r.Ok? && "medical_history" !in data ==> r.value.history == []
    ensures r.Ok? <==> HoldsText(data, ["username", "password", "contact_info"]) &&
                       ("medical_history" in data ==> data["medical_history"].List?)
    ensures r.Ok? ==> data["username"] == Str(r.value.username) && data["password"] == Str(r.value.password) &&
                      data["contact_info"] == Str(r.value.contactInfo)
    ensures r.Ok? && "medical_history" in data ==> data["medical_history"] == List(r.value.history)
    // a missing key is the first one absent, in the order the constructor reads them
    ensures r.Err? && r.error.MissingKey? ==> r.error.key !in data
    ensures r == Err(MissingKey("password")) ==> "username" in data
    ensures r == Err(MissingKey("contact_info")) ==> "username" in data && "password" in data
  {
    var username := TextAt(data, "username");
    var password := TextAt(data, "password");
    var contact := TextAt(data, "contact_info");
    if username.Err? then Err(username.error)
    else if password.Err? then Err(password.error)
    else if contact.Err? then Err(contact.error)
    else
      var history := if "medical_history" in data then data["medical_history"] else List([]);
      if !history.List? then Err(NotList("medical_history"))
      else Ok(PatientData(username.value, password.value, contact.value,
                          if "name" in data then data["name"] else Null,
                          if "age" in data then data["age"] else Null,
                          history.items))
  }

  /** A patient written by `to_dict` reads back unchanged. */
  lemma PatientRoundTrip(p: PatientData)
    ensures PatientFromDict(PatientToDict(p)) == Ok(p)
  {
    var data := PatientToDict(p);
    assert data["username"] == Str(p.username) && data["password"] == Str(p.password);
    assert data["contact_info"] == Str(p.contactInfo) && data["medical_history"] == List(p.history);
    assert data["name"] == p.name && data["age"] == p.age;
  }

  class Patient {
    const account: User
    var name: Value
    var age: Value
    var history: seq<Value>

    constructor (username: string, password: string, contactInfo: string, name: Value, age: Value)
      ensures fresh(account) && Data() == PatientData(username, password, contactInfo, name, age, [])
    {
      account := new User(username, password, contactInfo);
      this.name, this.age := name, age;
      history := [];
    }

    function Data(): PatientData
      reads this, account
    {
      PatientData(account.username, account.password, account.contactInfo, name, age, history)
    }

    /** `to_dict()`. */
    function ToDict(): map<string, Value>
      reads this, account
    {
      PatientToDict(Data())
    }

    /** `add_medical_history(entry)`: one entry more, at the end. */
    method AddMedicalHistory(entry: Value)
      modifies this
      ensures history == old(history) + [entry]
      ensures name == old(name) && age == old(age)
    {
      history := history + [entry];
    }

    /** `Patient.from_dict(data)`. */
    static method FromDict(data: map<string, Value>) returns (r: Result<Patient, DictError>)
      ensures r.Err? <==> PatientFromDict(data).Err?
      ensures r.Err? ==> r.error == PatientFromDict(data).error
      ensures r.Ok? ==> fresh(r.value) && fresh(r.value.account) && r.value.Data() == PatientFromDict(data).value
    {
      var decoded := PatientFromDict(data);
      if decoded.Err? {
        return Err(decoded.error);
      }
      var d := decoded.value;
      var p := new Patient(d.username, d.password, d.contactInfo, d.name, d.age);
      p.history := d.history;
      return Ok(p);
    }
  }

  datatype AppointmentData = AppointmentData(id: string, doctorId: string, patientId: string,
                                             date: string, time: string, reason: string, status: string)

  function AppointmentToDict(a: AppointmentData): map<string, Value> {
    map["appointment_id" := Str(a.id), "doctor_id" := Str(a.doctorId), "patient_id" := Str(a.patientId),
        "date" := Str(a.date), "time" := Str(a.time), "reason" := Str(a.reason), "status" := Str(a.status)]
  }

  /** `Appointment.from_dict(data)`: the status is not read; the appointment is made
      afresh, so it is "Scheduled". */
  function AppointmentFromDict(data: map<string, Value>): (r: Result<AppointmentData, DictError>)
    ensures r.Ok? ==> r.value.status == "Scheduled"
    ensures r.Ok? <==> HoldsText(data, ["appointment_id", "doctor_id", "patient_id", "date", "time", "reason"])
    ensures r.Ok? ==> data["appointment_id"] == Str(r.value.id) && data["doctor_id"] == Str(r.value.doctorId) &&
                      data["patient_id"] == Str(r.value.patientId) && data["date"] == Str(r.value.date) &&
                      data["time"] == Str(r.value.time) && data["reason"] == Str(r.value.reason)
    // a missing key is the first one absent, in the order the constructor reads them
    ensures r.Err? && r.error.MissingKey? ==> r.error.key !in data
    ensures r == Err(MissingKey("doctor_id")) ==> "appointment_id" in data
    ensures r == Err(MissingKey("patient_id")) ==> "appointment_id" in data && "doctor_id" in data
    ensures r == Err(MissingKey("date")) ==> "appointment_id" in data && "doctor_id" in data && "patient_id" in data
    ensures r == Err(MissingKey("time")) ==>
      "appointment_id" in data && "doctor_id" in data && "patient_id" in data && "date" in data
    ensures r == Err(MissingKey("reason")) ==>
      "appointment_id" in data && "doctor_id" in data && "patient_id" in data && "date" in data && "time" in data
  {
    var id := TextAt(data, "appointment_id");
    var doctor := TextAt(data, "doctor_id");
    var patient := TextAt(data, "patient_id");
    var date := TextAt(data, "date");
    var time := TextAt(data, "time");
    var reason := TextAt(data, "reason");
    if id.Err? then Err(id.error)
    else if doctor.Err? then Err(doctor.error)
    else if patient.Err? then Err(patient.error)
    else if date.Err? then Err(date.error)
    else if time.Err? then Err(time.error)
    else if reason.Err? then Err(reason.error)
    else Ok(AppointmentData(id.value, doctor.value, patient.value, date.value, time.value, reason.value, "Scheduled"))
  }

  /** Writing and reading back an appointment keeps everything but the status, which
      returns to "Scheduled": a rescheduled or canceled appointment is not restored. */
  lemma AppointmentRoundTrip(a: AppointmentData)
    ensures AppointmentFromDict(AppointmentToDict(a)) == Ok(a.(status := "Scheduled"))
  {
    var data := AppointmentToDict(a);
    assert data["appointment_id"] == Str(a.id) && data["doctor_id"] == Str(a.doctorId);
    assert data["patient_id"] == Str(a.patientId) && data["date"] == Str(a.date);
    assert data["time"] == Str(a.time) && data["reason"] == Str(a.reason);
  }

  class Appointment {
    var id: string
    var doctorId: string
    var patientId: string
    var date: string
    var time: string
    var reason: string
    var status: string

    function Data(): AppointmentData
      reads this
    {
      AppointmentData(id, doctorId, patientId, date, time, reason, status)
    }

    /** `Appointment(...)`: every new appointment is "Scheduled". */
    constructor (id: string, doctorId: string, patientId: string, date: string, time: string, reason: string)
      ensures Data() == AppointmentData(id, doctorId, patientId, date, time, reason, "Scheduled")
    {
      this.id, this.doctorId, this.patientId := id, doctorId, patientId;
      this.date, this.time, this.reason := date, time, reason;
      status := "Scheduled";
    }

    /** `to_dict()`. */
    function ToDict(): map<string, Value>
      reads this
    {
      AppointmentToDict(Data())
    }

    /** `reschedule(new_date, new_time)`: new date and time, status "Rescheduled". */
    method Reschedule(newDate: string, newTime: string)
      modifies this
      ensures Data() == old(Data()).(date := newDate, time := newTime, status := "Rescheduled")
    {
      date := newDate;
      time := newTime;
      status := "Rescheduled";
    }

    /** `cancel()`: only the status changes, to "Canceled". */
    method Cancel()
      modifies this
      ensures Data() == old(Data()).(status := "Canceled")
    {
      status := "Canceled";
    }

    /** `Appointment.from_dict(data)`. */
    static method FromDict(data: map<string, Value>) returns (r: Result<Appointment, DictError>)
      ensures r.Err? <==> AppointmentFromDict(data).Err?
      ensures r.Err? ==> r.error == AppointmentFromDict(data).error
      ensures r.Ok? ==> fresh(r.value) && r.value.Data() == AppointmentFromDict(data).value
    {
      var decoded := AppointmentFromDict(data);
      if decoded.Err? {
        return Err(decoded.error);
      }
      var d := decoded.value;
      var a := new Appointment(d.id, d.doctorId, d.patientId, d.date, d.time, d.reason);
      return Ok(a);
    }
  }

  /** One entry of a prescription's `medications` list. */
  datatype Medication = Medication(name: string, dosage: string, instructions: string)

  function MedicationToDict(m: Medication): Value {
    Obj(map["name" := Str(m.name), "dosage" := Str(m.dosage), "instructions" := Str(m.instructions)])
  }

  function MedicationsToList(ms: seq<Medication>): (r: seq<Value>)
    ensures |r| == |ms|
    ensures forall i :: 0 <= i < |ms| ==> r[i] == MedicationToDict(ms[i])
  {
    if ms == [] then [] else [MedicationToDict(ms[0])] + MedicationsToList(ms[1..])
  }

  function MedicationFromDict(v: Value): Option<Medication> {
    if v.Obj? && "name" in v.fields && "dosage" in v.fields && "instructions" in v.fields &&
       v.fields["name"].Str? && v.fields["dosage"].Str? && v.fields["instructions"].Str?
    then Some(Medication(v.fields["name"].s, v.fields["dosage"].s, v.fields["instructions"].s))
    else None
  }

  /** The medications of a list, or the position of the first entry that is not one. */
  function MedicationsFromList(items: seq<Value>, from: nat): (r: Result<seq<Medication>, DictError>)
    ensures r.Ok? <==> forall i :: 0 <= i < |items| ==> MedicationFromDict(items[i]).Some?
    ensures r.Ok? ==> |r.value| == |items|
    ensures r.Ok? ==> forall i :: 0 <= i < |items| ==> MedicationFromDict(items[i]) == Some(r.value[i])
    ensures r.Err? ==> r.error.BadMedication? && from <= r.error.index < from + |items|
    ensures r.Err? ==> MedicationFromDict(items[r.error.index - from]).None?
    ensures r.Err? ==> forall i :: 0 <= i < r.error.index - from ==> MedicationFromDict(items[i]).Some?
  {
    if items == [] then Ok([])
    else
      var first := MedicationFromDict(items[0]);
      if first.None? then Err(BadMedication(from))
      else
        var rest := MedicationsFromList(items[1..], from + 1);
        if rest.Err? then rest else Ok([first.value] + rest.value)
  }

  /** One medication written out as a dict reads back unchanged. */
  lemma MedicationRoundTrip(m: Medication)
    ensures MedicationFromDict(MedicationToDict(m)) == Some(m)
  {
    var v := MedicationToDict(m);
    assert v.fields["name"] == Str(m.name) && v.fields["dosage"] == Str(m.dosage);
    assert v.fields["instructions"] == Str(m.instructions);
  }

  /** Medications written out as a list of dicts read back unchanged. */
  lemma MedicationsRoundTrip(ms: seq<Medication>, from: nat)
    ensures MedicationsFromList(MedicationsToList(ms), from) == Ok(ms)
  {
    var items := MedicationsToList(ms);
    forall i | 0 <= i < |ms|
      ensures MedicationFromDict(items[i]) == Some(ms[i])
    {
      MedicationRoundTrip(ms[i]);
    }
    var r := MedicationsFromList(items, from);
    assert r.Ok?;
    assert |r.value| == |ms| && forall i :: 0 <= i < |ms| ==> r.value[i] == ms[i];
    assert r.value == ms;
  }

  datatype PrescriptionData = PrescriptionData(id: string, doctorId: string, patientId: string, date: string,
                                               medications: seq<Medication>)

  function PrescriptionToDict(p: PrescriptionData): map<string, Value> {
    map["prescription_id" := Str(p.id), "doctor_id" := Str(p.doctorId), "patient_id" := Str(p.patientId),
        "date" := Str(p.date), "medications" := List(MedicationsToList(p.medications))]
  }

  /** `Prescription.from_dict(data)`: all five keys must be present. */
  function PrescriptionFromDict(data: map<string, Value>): (r: Result<PrescriptionData, DictError>)
    ensures r.Ok? <==> HoldsText(data, ["prescription_id", "doctor_id", "patient_id", "date"]) &&
                       "medications" in data && data["medications"].List? &&
                       forall i :: 0 <= i < |data["medications"].items| ==> MedicationFromDict(data["medications"].items[i]).Some?
    ensures r.Ok? ==> data["prescription_id"] == Str(r.value.id) && data["doctor_id"] == Str(r.value.doctorId) &&
                      data["patient_id"] == Str(r.value.patientId) && data["date"] == Str(r.value.date) &&
                      |data["medications"].items| == |r.value.medications| &&
                      forall i :: 0 <= i < |r.value.medications| ==>
                        MedicationFromDict(data["medications"].items[i]) == Some(r.value.medications[i])
    // a missing key is the first one absent, in the order the constructor reads them
    ensures r.Err? && r.error.MissingKey? ==> r.error.key !in data
    ensures r == Err(MissingKey("doctor_id")) ==> "prescription_id" in data
    ensures r == Err(MissingKey("patient_id")) ==> "prescription_id" in data && "doctor_id" in data
    ensures r == Err(MissingKey("date")) ==> "prescription_id" in data && "doctor_id" in data && "patient_id" in data
    ensures r == Err(MissingKey("medications")) ==>
      "prescription_id" in data && "doctor_id" in data && "patient_id" in data && "date" in data
  {
    var id := TextAt(data, "prescription_id");
    var doctor := TextAt(data, "doctor_id");
    var patient := TextAt(data, "patient_id");
    var date := TextAt(data, "date");
    if id.Err? then Err(id.error)
    else if doctor.Err? then Err(doctor.error)
    else if patient.Err? then Err(patient.error)
    else if date.Err? then Err(date.error)
    else if "medications" !in data then Err(MissingKey("medications"))
    else if !data["medications"].List? then Err(NotList("medications"))
    else
      var meds := MedicationsFromList(data["medications"].items, 0);
      if meds.Err? then Err(meds.error)
      else Ok(PrescriptionData(id.value, doctor.value, patient.value, date.value, meds.value))
  }

  /** A prescription written by `to_dict` reads back unchanged. */
  lemma PrescriptionRoundTrip(p: PrescriptionData)
    ensures PrescriptionFromDict(PrescriptionToDict(p)) == Ok(p)
  {
    var data := PrescriptionToDict(p);
    assert data["prescription_id"] == Str(p.id) && data["doctor_id"] == Str(p.doctorId);
    assert data["patient_id"] == Str(p.patientId) && data["date"] == Str(p.date);
    assert data["medications"] == List(MedicationsToList(p.medications));
    MedicationsRoundTrip(p.medications, 0);
  }

  class Prescription {
    var id: string
    var doctorId: string
    var patientId: string
    var date: string
    var medications: seq<Medication>

    function Data(): PrescriptionData
      reads this
    {
      PrescriptionData(id, doctorId, patientId, date, medications)
    }

    constructor (id: string, doctorId: string, patientId: string, date: string, medications: seq<Medication>)
      ensures Data() == PrescriptionData(id, doctorId, patientId, date, medications)
    {
      this.id, this.doctorId, this.patientId, this.date := id, doctorId, patientId, date;
      this.medications := medications;
    }

    /** `to_dict()`. */
    function ToDict(): map<string, Value>
      reads this
    {
      PrescriptionToDict(Data())
    }

    /** `add_medication(name, dosage, instructions)`: one entry more, at the end. */
    method AddMedication(name: string, dosage: string, instructions: string)
      modifies this
      ensures Data() == old(Data()).(medications := old(medications) + [Medication(name, dosage, instructions)])
    {
      medications := medications + [Medication(name, dosage, instructions)];
    }

    /** `Prescription.from_dict(data)`. */
    static method FromDict(data: map<string, Value>) returns (r: Result<Prescription, DictError>)
      ensures r.Err? <==> PrescriptionFromDict(data).Err?
      ensures r.Err? ==> r.error == PrescriptionFromDict(data).error
      ensures r.Ok? ==> fresh(r.value) && r.value.Data() == PrescriptionFromDict(data).value
    {
      var decoded := PrescriptionFromDict(data);
      if decoded.Err? {
        return Err(decoded.error);
      }
      var d := decoded.value;
      var p := new Prescription(d.id, d.doctorId, d.patientId, d.date, d.medications);
      return Ok(p);
    }
  }

  /** The medications `issue_prescription` collects: the entries typed before the
      first whose name is "done" in any case. */
  function UntilDone(entries: seq<Medication>): (r: seq<Medication>)
    ensures r <= entries
    ensures forall m :: m in r ==> Text.Lower(m.name) != "done"
    ensures |r| < |entries| ==> Text.Lower(entries[|r|].name) == "done"
  {
    if entries == [] || Text.Lower(entries[0].name) == "done" then []
    else [entries[0]] + UntilDone(entries[1..])
  }

  /** The loop of `issue_prescription()` that asks for medications until one is named
      "done". */
  method CollectMedications(entries: seq<Medication>) returns (medications: seq<Medication>)
    ensures medications == UntilDone(entries)
  {
    medications := [];
    var i := 0;
    while i < |entries| && Text.Lower(entries[i].name) != "done"
      invariant 0 <= i <= |entries|
      invariant medications + UntilDone(entries[i..]) == UntilDone(entries)
    {
      assert entries[i..][1..] == entries[i + 1..];
      medications := medications + [entries[i]];
      i := i + 1;
    }
    assert UntilDone(entries[i..]) == [];
  }

  /** The module-level `patients`, `doctors`, `appointments` and `prescriptions` dicts. */
  class Clinic {
    var patients: map<string, Patient>
    var doctors: map<string, Doctor>
    var appointments: map<string, Appointment>
    var prescriptions: map<string, Prescription>

    constructor ()
      ensures patients == map[] && doctors == map[] && appointments == map[] && prescriptions == map[]
    {
      patients, doctors, appointments, prescriptions := map[], map[], map[], map[];
    }

    /** `create_patient()`: a new patient under its username, replacing any patient
        already there. */
    method CreatePatient(username: string, password: string, contactInfo: string, name: string, age: string)
      modifies this
      ensures patients.Keys == old(patients).Keys + {username}
      ensures fresh(patients[username]) && patients[username].Data() == PatientData(username, password, contactInfo, Str(name), Str(age), [])
      ensures forall k :: k in old(patients) && k != username ==> patients[k] == old(patients)[k]
      ensures doctors == old(doctors) && appointments == old(appointments) && prescriptions == old(prescriptions)
    {
      var p := new Patient(username, password, contactInfo, Str(name), Str(age));
      patients := patients[username := p];
    }

    /** `create_doctor()`: a new doctor under its username, replacing any doctor already
        there. */
    method CreateDoctor(username: string, password: string, contactInfo: string, name: string, specialty: string)
      modifies this
      ensures doctors.Keys == old(doctors).Keys + {username}
      ensures fresh(doctors[username]) && doctors[username].account.username == username
      ensures doctors[username].account.password == password
      ensures doctors[username].account.contactInfo == contactInfo
      ensures doctors[username].name == name && doctors[username].specialty == specialty
      ensures doctors[username].availability == map[]
      ensures forall k :: k in old(doctors) && k != username ==> doctors[k] == old(doctors)[k]
      ensures patients == old(patients) && appointments == old(appointments) && prescriptions == old(prescriptions)
    {
      var d := new Doctor(username, password, contactInfo, name, specialty);
      doctors := doctors[username := d];
    }

    /** `schedule_appointment()`: stores nothing unless both the doctor and the patient
        are registered; otherwise a new "Scheduled" appointment is stored under the given
        id, replacing any appointment there. */
    method ScheduleAppointment(id: string, doctorId: string, patientId: string, date: string, time: string,
                               reason: string) returns (stored: bool)
      modifies this
      ensures stored <==> doctorId in doctors && patientId in patients
      ensures !stored ==> appointments == old(appointments)
      ensures stored ==>
        appointments.Keys == old(appointments).Keys + {id} && fresh(appointments[id]) &&
        appointments[id].Data() == AppointmentData(id, doctorId, patientId, date, time, reason, "Scheduled") &&
        forall k :: k in old(appointments) && k != id ==> appointments[k] == old(appointments)[k]
      ensures patients == old(patients) && doctors == old(doctors) && prescriptions == old(prescriptions)
    {
      if doctorId !in doctors || patientId !in patients {
        return false;
      }
      var a := new Appointment(id, doctorId, patientId, date, time, reason);
      appointments := appointments[id := a];
      return true;
    }

    /** `issue_prescription()` with the medications typed in `entries`: stores nothing
        unless both the doctor and the patient are registered; otherwise the entries up
        to the first named "done" make up a prescription stored under the given id. */
    method IssuePrescription(id: string, doctorId: string, patientId: string, date: string,
                             entries: seq<Medication>) returns (stored: bool)
      modifies this
      ensures stored <==> doctorId in doctors && patientId in patients
      ensures !stored ==> prescriptions == old(prescriptions)
      ensures stored ==>
        prescriptions.Keys == old(prescriptions).Keys + {id} && fresh(prescriptions[id]) &&
        prescriptions[id].Data() == PrescriptionData(id, doctorId, patientId, date, UntilDone(entries)) &&
        forall k :: k in old(prescriptions) && k != id ==> prescriptions[k] == old(prescriptions)[k]
      ensures patients == old(patients) && doctors == old(doctors) && appointments == old(appointments)
    {
      if doctorId !in doctors || patientId !in patients {
        return false;
      }
      var medications := CollectMedications(entries);
      var p := new Prescription(id, doctorId, patientId, date, medications);
      prescriptions := prescriptions[id := p];
      return true;
    }
  }
}
