/** The console's records, the fixed doctor roster, the seed data, the two
    name lookups and the two derived appointment views. */
module Clinic {
  import opened Text
  import opened Seqs

  datatype Patient = Patient(id: string, name: string, email: string, phone: string, dateOfBirth: string)

  datatype Doctor = Doctor(id: string, name: string, specialty: string, available: bool)

  /** 'programada' | 'completada' | 'cancelada'. */
  datatype Status = Programada | Completada | Cancelada

  /** An appointment; `notes` is the optional field `notes?`. */
  datatype Appointment = Appointment(
    id: string, patientId: string, doctorId: string, date: string,
    time: string, reason: string, status: Status, notes: Option<string>)

  /** The status selector of the list view: 'all' or one status. */
  datatype StatusFilter = AllStatuses | OnlyStatus(status: Status)

  /** The four views: 'dashboard' | 'newAppointment' | 'appointments' | 'patients'. */
  datatype View = Dashboard | NewAppointment | AppointmentList | PatientList

  /** The hard-coded roster. */
  const Doctors: seq<Doctor> := [
    Doctor("1", "Dr. María González", "Odontología General", true),
    Doctor("2", "Dr. Carlos Ruiz", "Ortodoncista", true),
    Doctor("3", "Dra. Ana López", "Endodoncista", true),
    Doctor("4", "Dr. Roberto Silva", "Cirugía Oral", true)
  ]

  /** The patients loaded when the console mounts. */
  const SamplePatients: seq<Patient> := [
    Patient("1", "Juan Pérez", "juan@email.com", "555-0101", "1985-03-15"),
    Patient("2", "María García", "maria@email.com", "555-0102", "1990-07-22"),
    Patient("3", "Carlos López", "carlos@email.com", "555-0103", "1978-11-08")
  ]

  /** The appointments loaded when the console mounts; neither has notes. */
  const SampleAppointments: seq<Appointment> := [
    Appointment("1", "1", "1", "2024-01-20", "10:00", "Limpieza dental", Programada, None),
    Appointment("2", "2", "2", "2024-01-21", "14:30", "Consulta ortodóncia", Programada, None)
  ]

  const PatientNotFound := "Paciente no encontrado"
  const DoctorNotFound := "Doctor no encontrado"

  /** `getPatientName`: the name of the first patient with the given id, or
      the fallback text when no patient has it. */
  function GetPatientName(patients: seq<Patient>, patientId: string): (name: string)
    ensures (forall i :: 0 <= i < |patients| ==> patients[i].id != patientId) ==> name == PatientNotFound
    ensures forall i ::
      (0 <= i < |patients| && patients[i].id == patientId &&
       (forall j :: 0 <= j < i ==> patients[j].id != patientId)) ==> name == patients[i].name
  {
    match Find(patients, (p: Patient) => p.id == patientId)
    case Some(p) => p.name
    case None => PatientNotFound
  }

  /** `getDoctorName`: the name of the first roster entry with the given id,
      or the fallback text when none has it. */
  function GetDoctorName(doctorId: string): (name: string)
    ensures (forall i :: 0 <= i < |Doctors| ==> Doctors[i].id != doctorId) ==> name == DoctorNotFound
    ensures forall i ::
      (0 <= i < |Doctors| && Doctors[i].id == doctorId &&
       (forall j :: 0 <= j < i ==> Doctors[j].id != doctorId)) ==> name == Doctors[i].name
  {
    match Find(Doctors, (d: Doctor) => d.id == doctorId)
    case Some(d) => d.name
    case None => DoctorNotFound
  }

  /** The roster's ids are "1" to "4" and each names its own doctor; every
      other id, including the empty one, is not found. */
  lemma RosterLookup(doctorId: string)
    ensures doctorId == "1" ==> GetDoctorName(doctorId) == "Dr. María González"
    ensures doctorId == "2" ==> GetDoctorName(doctorId) == "Dr. Carlos Ruiz"
    ensures doctorId == "3" ==> GetDoctorName(doctorId) == "Dra. Ana López"
    ensures doctorId == "4" ==> GetDoctorName(doctorId) == "Dr. Roberto Silva"
    ensures doctorId !in {"1", "2", "3", "4"} ==> GetDoctorName(doctorId) == DoctorNotFound
  {
    assert Doctors[0].id == "1" && Doctors[1].id == "2" && Doctors[2].id == "3" && Doctors[3].id == "4";
  }

  /** The position of the first patient with a given id, when one has it. */
  lemma FirstWithId(patients: seq<Patient>, id: string) returns (k: int)
    requires exists i :: 0 <= i < |patients| && patients[i].id == id
    ensures 0 <= k < |patients| && patients[k].id == id
    ensures forall j :: 0 <= j < k ==> patients[j].id != id
  {
    k :| 0 <= k < |patients| && patients[k].id == id;
    while exists j :: 0 <= j < k && patients[j].id == id
      invariant 0 <= k < |patients| && patients[k].id == id
      decreases k
    {
      var j :| 0 <= j < k && patients[j].id == id;
      k := j;
    }
  }

  /** A patient appended after one with the same id is never found by id:
      the lookup keeps returning the earlier patient's name. */
  lemma AppendedDuplicateIdShadowed(patients: seq<Patient>, p: Patient)
    requires exists i :: 0 <= i < |patients| && patients[i].id == p.id
    ensures GetPatientName(patients + [p], p.id) == GetPatientName(patients, p.id)
  {
    var k := FirstWithId(patients, p.id);
    assert (patients + [p])[k] == patients[k];
  }

  /** Every appointment refers to a patient of the list. */
  ghost predicate PatientsLinked(patients: seq<Patient>, appointments: seq<Appointment>) {
    forall a :: a in appointments ==> exists j :: 0 <= j < |patients| && patients[j].id == a.patientId
  }

  /** Every appointment still has the status 'programada'. */
  ghost predicate AllScheduled(appointments: seq<Appointment>) {
    forall i :: 0 <= i < |appointments| ==> appointments[i].status == Programada
  }

  /** While the appointments are linked, the name shown for each is the name
      of a patient with its id. */
  lemma LinkedNameFound(patients: seq<Patient>, appointments: seq<Appointment>, a: Appointment)
    requires PatientsLinked(patients, appointments) && a in appointments
    ensures exists j ::
      (0 <= j < |patients| && patients[j].id == a.patientId &&
       GetPatientName(patients, a.patientId) == patients[j].name)
  {
    var k := FirstWithId(patients, a.patientId);
  }

  /** The text search of the list view: the looked-up patient name or doctor
      name, lowered, contains the lowered search term. */
  predicate MatchesSearch(patients: seq<Patient>, a: Appointment, term: string) {
    Includes(Lower(GetPatientName(patients, a.patientId)), Lower(term)) ||
    Includes(Lower(GetDoctorName(a.doctorId)), Lower(term))
  }

  /** The status selector: 'all' or the appointment's own status. */
  predicate MatchesStatus(a: Appointment, filter: StatusFilter) {
    filter == AllStatuses || filter == OnlyStatus(a.status)
  }

  /** The list view's selection test as a predicate value for Filter. */
  function Listed(patients: seq<Patient>, term: string, filter: StatusFilter): Appointment -> bool {
    (a: Appointment) => MatchesSearch(patients, a, term) && MatchesStatus(a, filter)
  }

  /** `filteredAppointments`: an order-preserving subsequence of the
      appointments holding exactly those that match both the search term and
      the status selector, each as often as in the list. */
  function FilteredAppointments(patients: seq<Patient>, appointments: seq<Appointment>,
                                term: string, filter: StatusFilter): (r: seq<Appointment>)
    ensures IsSubsequence(r, appointments)
    ensures forall a :: a in r <==>
      a in appointments && MatchesSearch(patients, a, term) && MatchesStatus(a, filter)
    ensures forall a ::
      multiset(r)[a] == (if MatchesSearch(patients, a, term) && MatchesStatus(a, filter)
                         then multiset(appointments)[a] else 0)
  {
    var keep := Listed(patients, term, filter);
    FilterSubsequence(appointments, keep);
    FilterMembers(appointments, keep);
    FilterCounts(appointments, keep);
    Filter(appointments, keep)
  }

  /** An empty search term with 'all' lists every appointment, in order. */
  lemma EmptySearchListsAll(patients: seq<Patient>, appointments: seq<Appointment>)
    ensures FilteredAppointments(patients, appointments, "", AllStatuses) == appointments
  {
    var keep := Listed(patients, "", AllStatuses);
    forall i | 0 <= i < |appointments| ensures keep(appointments[i]) {
      var a := appointments[i];
      assert OccursAt(Lower(GetPatientName(patients, a.patientId)), Lower(""), 0);
    }
    FilterKeepsAll(appointments, keep);
  }

  /** The search ignores the case of the term: two terms that lower to the
      same text select the same appointments. */
  lemma SearchIgnoresCase(patients: seq<Patient>, appointments: seq<Appointment>,
                          term1: string, term2: string, filter: StatusFilter)
    requires Lower(term1) == Lower(term2)
    ensures FilteredAppointments(patients, appointments, term1, filter) ==
            FilteredAppointments(patients, appointments, term2, filter)
  {
    FilterCongruent(appointments, Listed(patients, term1, filter), Listed(patients, term2, filter));
  }

  /** A status selector other than 'all' or 'programada' lists nothing while
      every appointment is still scheduled. */
  lemma OnlyScheduledListed(patients: seq<Patient>, appointments: seq<Appointment>,
                            term: string, s: Status)
    requires AllScheduled(appointments)
    requires s != Programada
    ensures FilteredAppointments(patients, appointments, term, OnlyStatus(s)) == []
  {
  }

  /** The dashboard's "today" test as a predicate value for Filter. */
  function DatedOn(today: string): Appointment -> bool {
    (a: Appointment) => a.date == today
  }

  /** `todayAppointments`: the appointments whose date string equals `today`,
      in order. */
  function TodayAppointments(appointments: seq<Appointment>, today: string): (r: seq<Appointment>)
    ensures IsSubsequence(r, appointments)
    ensures forall a :: a in r <==> a in appointments && a.date == today
  {
    FilterSubsequence(appointments, DatedOn(today));
    FilterMembers(appointments, DatedOn(today));
    Filter(appointments, DatedOn(today))
  }

  /** The positions of the appointments dated `today`. */
  ghost function DatedIndices(appointments: seq<Appointment>, today: string): set<int> {
    MatchingIndices(appointments, DatedOn(today))
  }

  /** The "Citas Hoy" count is the number of appointments dated today. */
  lemma TodayCount(appointments: seq<Appointment>, today: string)
    ensures |TodayAppointments(appointments, today)| == |DatedIndices(appointments, today)|
  {
    FilterLength(appointments, DatedOn(today));
  }

  /** Appending an appointment raises the count by one when it is dated
      today and leaves it unchanged otherwise. */
  lemma TodayCountAppend(appointments: seq<Appointment>, a: Appointment, today: string)
    ensures |TodayAppointments(appointments + [a], today)| ==
      |TodayAppointments(appointments, today)| + (if a.date == today then 1 else 0)
  {
    FilterSnoc(appointments, a, DatedOn(today));
  }

  /** The names the seed data shows in the list view. */
  lemma SampleNames()
    ensures GetPatientName(SamplePatients, "1") == "Juan Pérez"
    ensures GetPatientName(SamplePatients, "2") == "María García"
    ensures GetDoctorName("1") == "Dr. María González"
    ensures GetDoctorName("2") == "Dr. Carlos Ruiz"
  {
    assert SamplePatients[0].id == "1" && SamplePatients[1].id == "2";
    RosterLookup("1");
    RosterLookup("2");
  }

  /** Those names and the term "ruiz", lowered. */
  lemma SampleLowered()
    ensures Lower("Juan Pérez") == "juan pérez"
    ensures Lower("María García") == "maría garcía"
    ensures Lower("Dr. María González") == "dr. maría gonzález"
    ensures Lower("Dr. Carlos Ruiz") == "dr. carlos ruiz"
    ensures Lower("ruiz") == "ruiz"
  {
    LowerIs("Juan Pérez", "juan pérez");
    LowerIs("María García", "maría garcía");
    LowerIs("Dr. María González", "dr. maría gonzález");
    LowerIs("Dr. Carlos Ruiz", "dr. carlos ruiz");
    LowerIs("ruiz", "ruiz");
  }

  /** "ruiz" occurs in the lowered name of the second doctor and in neither
      name shown for the first appointment. */
  lemma SampleOccurrences()
    ensures Includes("dr. carlos ruiz", "ruiz")
    ensures !Includes("dr. maría gonzález", "ruiz")
    ensures !Includes("juan pérez", "ruiz")
  {
    assert OccursAt("dr. carlos ruiz", "ruiz", 11);
    var d1, p1 := "dr. maría gonzález", "juan pérez";
    forall i | 0 <= i && i + 4 <= |d1| ensures !OccursAt(d1, "ruiz", i) {
      assert d1[i..i + 4][1] == d1[i + 1];
    }
    forall i | 0 <= i && i + 4 <= |p1| ensures !OccursAt(p1, "ruiz", i) {
      assert p1[i..i + 4][0] == p1[i] && p1[i..i + 4][1] == p1[i + 1];
    }
  }

  /** Of the seed appointments, only the second matches the search "ruiz". */
  lemma SampleMatches()
    ensures !MatchesSearch(SamplePatients, SampleAppointments[0], "ruiz")
    ensures MatchesSearch(SamplePatients, SampleAppointments[1], "ruiz")
  {
    SampleNames();
    SampleLowered();
    SampleOccurrences();
  }

  /** The search example from the seed data: "ruiz" lists only the
      appointment with Dr. Carlos Ruiz. */
  lemma SampleSearch()
    ensures FilteredAppointments(SamplePatients, SampleAppointments, "ruiz", AllStatuses) == [SampleAppointments[1]]
  {
    var a0, a1 := SampleAppointments[0], SampleAppointments[1];
    var keep := Listed(SamplePatients, "ruiz", AllStatuses);
    assert !keep(a0) && keep(a1) by {
      SampleMatches();
    }
    assert SampleAppointments == [a0, a1];
    FilterSecondOnly(a0, a1, keep);
  }

  /** Filtering a pair that keeps only its second element. */
  lemma FilterSecondOnly(a0: Appointment, a1: Appointment, keep: Appointment -> bool)
    requires !keep(a0) && keep(a1)
    ensures Filter([a0, a1], keep) == [a1]
  {
    assert [a1][1..] == [];
    assert Filter([a1], keep) == [a1];
    assert [a0, a1][1..] == [a1];
  }

  /** Adding the 'cancelada' selector to that search empties the list. */
  lemma SampleSearchCancelled()
    ensures FilteredAppointments(SamplePatients, SampleAppointments, "ruiz", OnlyStatus(Cancelada)) == []
  {
    OnlyScheduledListed(SamplePatients, SampleAppointments, "ruiz", Cancelada);
  }
}
