/** The appointment console's state and the handlers that change it: the
    form check, the submission, navigation, the list-view selectors and field
    edits. The seed data is loaded by LoadSampleData, as on mount. */
module Console {
  import opened Text
  import opened Seqs
  import opened Form
  import opened Clinic

  class App {
    var currentView: View
    var appointments: seq<Appointment>
    var patients: seq<Patient>
    var searchTerm: string
    var filterStatus: StatusFilter
    var formData: FormData
    var formErrors: map<Field, string>

    /** What every handler preserves: each appointment refers to a listed
        patient and is still scheduled. */
    ghost predicate Valid()
      reads this
    {
      PatientsLinked(patients, appointments) && AllScheduled(appointments)
    }

    /** The initial state before mounting: dashboard, no records, empty form. */
    constructor ()
      ensures currentView == Dashboard && appointments == [] && patients == []
      ensures searchTerm == "" && filterStatus == AllStatuses
      ensures formData == EmptyForm && formErrors == map[]
      ensures Valid()
    {
      currentView := Dashboard;
      appointments := [];
      patients := [];
      searchTerm := "";
      filterStatus := AllStatuses;
      formData := EmptyForm;
      formErrors := map[];
    }

    /** The mount effect: replaces both lists with the seed data. */
    method LoadSampleData()
      modifies this`patients, this`appointments
      ensures patients == SamplePatients && appointments == SampleAppointments
      ensures Valid()
    {
      patients := SamplePatients;
      appointments := SampleAppointments;
      assert SamplePatients[0].id == "1" && SamplePatients[1].id == "2";
    }

    /** `validateForm`: rebuilds the error map check by check, stores it, and
        reports whether it came out empty, which is exactly when the form is
        acceptable. */
    method ValidateForm() returns (valid: bool)
      modifies this`formErrors
      ensures old(Valid()) ==> Valid()
      ensures formErrors == Errors(formData)
      ensures valid <==> Acceptable(formData)
    {
      var errors := CollectErrors(formData);
      ErrorsEmptyIffAcceptable(formData);
      formErrors := errors;
      valid := |errors| == 0;
    }

    /** While the state is valid, the list views show for every appointment
        the name of a listed patient with its id. */
    lemma ShownPatientNames(a: Appointment)
      requires Valid() && a in appointments
      ensures exists j ::
        (0 <= j < |patients| && patients[j].id == a.patientId &&
         GetPatientName(patients, a.patientId) == patients[j].name)
    {
      LinkedNameFound(patients, appointments, a);
    }

    /** `handleSubmit`: checks the form; if it is acceptable, appends one
        patient and one appointment linked to it (status 'programada'),
        resets the form and shows the appointment list. The two `Date.now()`
        readings are the parameters. A rejected form changes only the error map. */
    method HandleSubmit(patientStamp: string, appointmentStamp: string)
      modifies this
      ensures formErrors == Errors(old(formData))
      ensures searchTerm == old(searchTerm) && filterStatus == old(filterStatus)
      ensures !Acceptable(old(formData)) ==>
        patients == old(patients) && appointments == old(appointments) &&
        formData == old(formData) && currentView == old(currentView)
      ensures Acceptable(old(formData)) ==>
        patients == old(patients) + [Patient(patientStamp, old(formData).patientName,
          old(formData).patientEmail, old(formData).patientPhone, old(formData).patientDOB)]
      ensures Acceptable(old(formData)) ==>
        |appointments| == |old(appointments)| + 1 &&
        appointments[..|old(appointments)|] == old(appointments)
      ensures Acceptable(old(formData)) ==>
        var a := appointments[|appointments| - 1];
        a.id == appointmentStamp && a.patientId == patientStamp &&
        a.patientId == patients[|patients| - 1].id && a.status == Programada &&
        a.doctorId == old(formData).doctorId && a.date == old(formData).date &&
        a.time == old(formData).time && a.reason == old(formData).reason &&
        a.notes == Some(old(formData).notes)
      ensures Acceptable(old(formData)) ==> formData == EmptyForm && currentView == AppointmentList
      ensures old(Valid()) ==> Valid()
    {
      var valid := ValidateForm();
      if !valid {
        return;
      }
      var newPatient := Patient(patientStamp, formData.patientName, formData.patientEmail,
                                formData.patientPhone, formData.patientDOB);
      var newAppointment := Appointment(appointmentStamp, newPatient.id, formData.doctorId,
                                        formData.date, formData.time, formData.reason,
                                        Programada, Some(formData.notes));
      patients := patients + [newPatient];
      appointments := appointments + [newAppointment];
      formData := EmptyForm;
      currentView := AppointmentList;
      LinkedAfterSubmit(old(patients), old(appointments), newPatient, newAppointment);
    }

    /** Navigation: any view can be reached from any other. */
    method Navigate(view: View)
      modifies this`currentView
      ensures old(Valid()) ==> Valid()
      ensures currentView == view
    {
      currentView := view;
    }

    /** The search box of the list view. */
    method SetSearchTerm(term: string)
      modifies this`searchTerm
      ensures old(Valid()) ==> Valid()
      ensures searchTerm == term
    {
      searchTerm := term;
    }

    /** The status selector of the list view. */
    method SetFilterStatus(filter: StatusFilter)
      modifies this`filterStatus
      ensures old(Valid()) ==> Valid()
      ensures filterStatus == filter
    {
      filterStatus := filter;
    }

    /** An input's change handler: `{...formData, k: value}`. */
    method EditField(k: Field, value: string)
      modifies this`formData
      ensures old(Valid()) ==> Valid()
      ensures formData == WithValue(old(formData), k, value)
    {
      formData := WithValue(formData, k, value);
    }
  }

  /** The checks of `validateForm`, line by line, on the form `f`: the result
      is the error map of the rules. */
  method CollectErrors(f: FormData) returns (errors: map<Field, string>)
    ensures errors == Errors(f)
  {
    errors := map[];
    errors := SetIf(errors, IsBlank(f.patientName), PatientName, NameRequired, f, 0);
    errors := SetIf(errors, IsBlank(f.patientEmail), PatientEmail, EmailRequired, f, 1);
    errors := SetIf(errors, !EmailTest(f.patientEmail), PatientEmail, EmailInvalid, f, 2);
    errors := SetIf(errors, IsBlank(f.patientPhone), PatientPhone, PhoneRequired, f, 3);
    errors := SetIf(errors, f.patientDOB == "", PatientDOB, DOBRequired, f, 4);
    errors := SetIf(errors, f.doctorId == "", DoctorId, DoctorRequired, f, 5);
    errors := SetIf(errors, f.date == "", Date, DateRequired, f, 6);
    errors := SetIf(errors, f.time == "", Time, TimeRequired, f, 7);
    errors := SetIf(errors, IsBlank(f.reason), Reason, ReasonRequired, f, 8);
    CheckedIsErrors(f);
  }

  /** One line of `validateForm`: `if (failed) errors[k] = message`, where the
      line is line `n` of the table `CheckAt` for the form `f`. */
  method SetIf(errors: map<Field, string>, failed: bool, k: Field, message: string,
               ghost f: FormData, ghost n: nat)
    returns (updated: map<Field, string>)
    requires n < CheckCount && CheckAt(f, n) == Check(failed, k, message)
    requires errors == Checked(f, n)
    ensures updated == Checked(f, n + 1)
  {
    updated := errors;
    if failed {
      updated := updated[k := message];
    }
  }

  /** Appending a patient and an appointment that refers to it keeps every
      appointment linked and scheduled. */
  lemma LinkedAfterSubmit(patients: seq<Patient>, appointments: seq<Appointment>,
                          p: Patient, a: Appointment)
    requires a.patientId == p.id && a.status == Programada
    ensures PatientsLinked(patients, appointments) ==> PatientsLinked(patients + [p], appointments + [a])
    ensures AllScheduled(appointments) ==> AllScheduled(appointments + [a])
  {
    if PatientsLinked(patients, appointments) {
      var ps := patients + [p];
      forall b | b in appointments + [a]
        ensures exists j :: 0 <= j < |ps| && ps[j].id == b.patientId
      {
        if b == a {
          assert ps[|patients|].id == b.patientId;
        } else {
          var j :| 0 <= j < |patients| && patients[j].id == b.patientId;
          assert ps[j].id == b.patientId;
        }
      }
    }
  }
}
