/** The new-appointment form: its nine text fields, the error messages, and
    the rule set that `validateForm` applies, stated field by field. */
module Form {
  import opened Text
  import opened Seqs

  /** The keys of the form and of its error map. */
  datatype Field =
    | PatientName | PatientEmail | PatientPhone | PatientDOB
    | DoctorId | Date | Time | Reason | Notes

  const AllFields: set<Field> :=
    {PatientName, PatientEmail, PatientPhone, PatientDOB, DoctorId, Date, Time, Reason, Notes}

  /** The `formData` record: every field is the raw text of its input control. */
  datatype FormData = FormData(
    patientName: string, patientEmail: string, patientPhone: string,
    patientDOB: string, doctorId: string, date: string, time: string,
    reason: string, notes: string)

  /** The initial and the reset value of `formData`. */
  const EmptyForm: FormData := FormData("", "", "", "", "", "", "", "", "")

  /** The text held by field `k`. */
  function Value(f: FormData, k: Field): string {
    match k
    case PatientName => f.patientName
    case PatientEmail => f.patientEmail
    case PatientPhone => f.patientPhone
    case PatientDOB => f.patientDOB
    case DoctorId => f.doctorId
    case Date => f.date
    case Time => f.time
    case Reason => f.reason
    case Notes => f.notes
  }

  /** `{...f, k: v}`: the form with field `k` replaced by `v`. */
  function WithValue(f: FormData, k: Field, v: string): (g: FormData)
    ensures Value(g, k) == v
    ensures forall j :: j != k ==> Value(g, j) == Value(f, j)
  {
    match k
    case PatientName => f.(patientName := v)
    case PatientEmail => f.(patientEmail := v)
    case PatientPhone => f.(patientPhone := v)
    case PatientDOB => f.(patientDOB := v)
    case DoctorId => f.(doctorId := v)
    case Date => f.(date := v)
    case Time => f.(time := v)
    case Reason => f.(reason := v)
    case Notes => f.(notes := v)
  }

  const NameRequired := "El nombre es requerido"
  const EmailRequired := "El email es requerido"
  const EmailInvalid := "Email inválido"
  const PhoneRequired := "El teléfono es requerido"
  const DOBRequired := "La fecha de nacimiento es requerida"
  const DoctorRequired := "Debe seleccionar un doctor"
  const DateRequired := "La fecha es requerida"
  const TimeRequired := "La hora es requerida"
  const ReasonRequired := "El motivo de la cita es requerido"

  /** The message that field `k` is left with once every check has run, if
      any. The e-mail has two checks; the format check runs second, so its
      message is the one that stays when both fail. */
  function Rule(f: FormData, k: Field): Option<string> {
    match k
    case PatientName => if IsBlank(f.patientName) then Some(NameRequired) else None
    case PatientEmail =>
      if !EmailTest(f.patientEmail) then Some(EmailInvalid)
      else if IsBlank(f.patientEmail) then Some(EmailRequired)
      else None
    case PatientPhone => if IsBlank(f.patientPhone) then Some(PhoneRequired) else None
    case PatientDOB => if f.patientDOB == "" then Some(DOBRequired) else None
    case DoctorId => if f.doctorId == "" then Some(DoctorRequired) else None
    case Date => if f.date == "" then Some(DateRequired) else None
    case Time => if f.time == "" then Some(TimeRequired) else None
    case Reason => if IsBlank(f.reason) then Some(ReasonRequired) else None
    case Notes => None
  }

  /** The error map `validateForm` computes for `f`: one entry per field whose
      rule fails, holding that field's final message. */
  function Errors(f: FormData): map<Field, string> {
    map k | k in AllFields && Rule(f, k).Some? :: Rule(f, k).value
  }

  /** A field has an entry exactly when its rule fails, and the entry is the rule's message. */
  lemma InErrors(f: FormData, k: Field)
    ensures k in Errors(f) <==> Rule(f, k).Some?
    ensures k in Errors(f) ==> Errors(f)[k] == Rule(f, k).value
  {
    assert k in AllFields;
  }

  /** One line of `validateForm`: when `failed`, the entry of `k` is set to
      `message`, replacing any earlier one. */
  function Mark(e: map<Field, string>, failed: bool, k: Field, message: string): map<Field, string> {
    if failed then e[k := message] else e
  }

  /** A line of `validateForm`: its test's outcome, the key it writes and the message. */
  datatype Check = Check(failed: bool, field: Field, message: string)

  /** The number of lines of `validateForm`; the e-mail has two. */
  const CheckCount := 9

  /** Line `i` of `validateForm`, in source order. */
  function CheckAt(f: FormData, i: nat): Check
    requires i < CheckCount
  {
    match i
    case 0 => Check(IsBlank(f.patientName), PatientName, NameRequired)
    case 1 => Check(IsBlank(f.patientEmail), PatientEmail, EmailRequired)
    case 2 => Check(!EmailTest(f.patientEmail), PatientEmail, EmailInvalid)
    case 3 => Check(IsBlank(f.patientPhone), PatientPhone, PhoneRequired)
    case 4 => Check(f.patientDOB == "", PatientDOB, DOBRequired)
    case 5 => Check(f.doctorId == "", DoctorId, DoctorRequired)
    case 6 => Check(f.date == "", Date, DateRequired)
    case 7 => Check(f.time == "", Time, TimeRequired)
    case _ => Check(IsBlank(f.reason), Reason, ReasonRequired)
  }

  /** The error map once the first `n` lines of `validateForm` have run on an
      empty map. */
  function Checked(f: FormData, n: nat): map<Field, string>
    requires n <= CheckCount
  {
    if n == 0 then map[]
    else
      var c := CheckAt(f, n - 1);
      Mark(Checked(f, n - 1), c.failed, c.field, c.message)
  }

  /** The message of the last of the first `n` lines that writes `k` and
      fails, if any. */
  function LastFailure(f: FormData, n: nat, k: Field): Option<string>
    requires n <= CheckCount
  {
    if n == 0 then None
    else
      var c := CheckAt(f, n - 1);
      if c.failed && c.field == k then Some(c.message) else LastFailure(f, n - 1, k)
  }

  /** Later lines overwrite earlier ones: after `n` lines, `k` has an entry
      exactly when one of them failed on it, and the entry is the last such
      line's message. */
  lemma {:induction false} CheckedLookup(f: FormData, n: nat, k: Field)
    requires n <= CheckCount
    ensures k in Checked(f, n) <==> LastFailure(f, n, k).Some?
    ensures k in Checked(f, n) ==> Checked(f, n)[k] == LastFailure(f, n, k).value
  {
    if n > 0 {
      CheckedLookup(f, n - 1, k);
    }
  }

  /** Running every line of `validateForm` yields the error map of the rules. */
  lemma CheckedIsErrors(f: FormData)
    ensures Checked(f, CheckCount) == Errors(f)
  {
    var e := Checked(f, CheckCount);
    forall k ensures (k in e <==> Rule(f, k).Some?) && (k in e ==> e[k] == Rule(f, k).value) {
      CheckedLookup(f, CheckCount, k);
      LastFailureIsRule(f, k);
    }
    ErrorsByRule(f, e);
  }

  /** Lines that write other keys do not change the last failure of `k`. */
  lemma {:induction false} LastFailureSkips(f: FormData, m: nat, n: nat, k: Field)
    requires m <= n <= CheckCount
    requires forall i :: m <= i < n ==> CheckAt(f, i).field != k
    ensures LastFailure(f, n, k) == LastFailure(f, m, k)
  {
    if m < n {
      LastFailureSkips(f, m, n - 1, k);
    }
  }

  /** The last failing line of each key carries the message of that key's rule. */
  lemma LastFailureIsRule(f: FormData, k: Field)
    ensures LastFailure(f, CheckCount, k) == Rule(f, k)
  {
    match k {
      case PatientName => LastFailureSkips(f, 1, CheckCount, k);
      case PatientEmail => LastFailureSkips(f, 3, CheckCount, k); LastFailureSkips(f, 0, 1, k);
      case PatientPhone => LastFailureSkips(f, 4, CheckCount, k); LastFailureSkips(f, 0, 3, k);
      case PatientDOB => LastFailureSkips(f, 5, CheckCount, k); LastFailureSkips(f, 0, 4, k);
      case DoctorId => LastFailureSkips(f, 6, CheckCount, k); LastFailureSkips(f, 0, 5, k);
      case Date => LastFailureSkips(f, 7, CheckCount, k); LastFailureSkips(f, 0, 6, k);
      case Time => LastFailureSkips(f, 8, CheckCount, k); LastFailureSkips(f, 0, 7, k);
      case Reason => LastFailureSkips(f, 0, 8, k);
      case Notes => LastFailureSkips(f, 0, CheckCount, k);
    }
  }

  /** A map that agrees with every field's rule is the error map. */
  lemma ErrorsByRule(f: FormData, e: map<Field, string>)
    requires forall k :: (k in e <==> Rule(f, k).Some?) && (k in e ==> e[k] == Rule(f, k).value)
    ensures e == Errors(f)
  {
    forall k ensures (k in e <==> k in Errors(f)) && (k in e ==> e[k] == Errors(f)[k]) {
      InErrors(f, k);
    }
  }

  /** The acceptance condition, field by field: name, phone and reason are not
      blank; the e-mail is not blank and passes the e-mail test; date of
      birth, doctor, date and time are not the empty string. Notes are free. */
  predicate Acceptable(f: FormData) {
    !IsBlank(f.patientName) &&
    !IsBlank(f.patientEmail) && EmailTest(f.patientEmail) &&
    !IsBlank(f.patientPhone) &&
    f.patientDOB != "" && f.doctorId != "" && f.date != "" && f.time != "" &&
    !IsBlank(f.reason)
  }

  /** The error map has a key exactly for each failed field; notes never has one. */
  lemma ErrorKeys(f: FormData)
    ensures PatientName in Errors(f) <==> IsBlank(f.patientName)
    ensures PatientEmail in Errors(f) <==> IsBlank(f.patientEmail) || !EmailTest(f.patientEmail)
    ensures PatientPhone in Errors(f) <==> IsBlank(f.patientPhone)
    ensures PatientDOB in Errors(f) <==> f.patientDOB == ""
    ensures DoctorId in Errors(f) <==> f.doctorId == ""
    ensures Date in Errors(f) <==> f.date == ""
    ensures Time in Errors(f) <==> f.time == ""
    ensures Reason in Errors(f) <==> IsBlank(f.reason)
    ensures Notes !in Errors(f)
  {
    InErrors(f, PatientName);
    InErrors(f, PatientEmail);
    InErrors(f, PatientPhone);
    InErrors(f, PatientDOB);
    InErrors(f, DoctorId);
    InErrors(f, Date);
    InErrors(f, Time);
    InErrors(f, Reason);
    InErrors(f, Notes);
    EmailTestNotBlank(f.patientEmail);
  }

  /** Validation succeeds (the error map is empty) exactly when the form is acceptable. */
  lemma ErrorsEmptyIffAcceptable(f: FormData)
    ensures Errors(f) == map[] <==> Acceptable(f)
  {
    ErrorKeys(f);
    if Acceptable(f) {
      forall k | k in Errors(f) ensures false {
        match k {
          case PatientName =>
          case PatientEmail =>
          case PatientPhone =>
          case PatientDOB =>
          case DoctorId =>
          case Date =>
          case Time =>
          case Reason =>
          case Notes =>
        }
      }
    }
  }

  /** The message each failed field is left with. */
  lemma ErrorMessages(f: FormData)
    ensures PatientName in Errors(f) ==> Errors(f)[PatientName] == NameRequired
    ensures PatientEmail in Errors(f) ==> Errors(f)[PatientEmail] == EmailInvalid
    ensures PatientPhone in Errors(f) ==> Errors(f)[PatientPhone] == PhoneRequired
    ensures PatientDOB in Errors(f) ==> Errors(f)[PatientDOB] == DOBRequired
    ensures DoctorId in Errors(f) ==> Errors(f)[DoctorId] == DoctorRequired
    ensures Date in Errors(f) ==> Errors(f)[Date] == DateRequired
    ensures Time in Errors(f) ==> Errors(f)[Time] == TimeRequired
    ensures Reason in Errors(f) ==> Errors(f)[Reason] == ReasonRequired
  {
    EmailTestNotBlank(f.patientEmail);
    InErrors(f, PatientName);
    InErrors(f, PatientEmail);
    InErrors(f, PatientPhone);
    InErrors(f, PatientDOB);
    InErrors(f, DoctorId);
    InErrors(f, Date);
    InErrors(f, Time);
    InErrors(f, Reason);
  }

  /** A blank e-mail is rejected with "Email inválido": it fails the format
      test too, so the "required" message written first is always
      overwritten, and no entry of the map ever holds it. */
  lemma EmailMessage(f: FormData)
    ensures IsBlank(f.patientEmail) ==> PatientEmail in Errors(f) && Errors(f)[PatientEmail] == EmailInvalid
    ensures forall k :: k in Errors(f) ==> Errors(f)[k] != EmailRequired
  {
    ErrorKeys(f);
    ErrorMessages(f);
    forall k | k in Errors(f) ensures Errors(f)[k] != EmailRequired {
      match k {
        case PatientName =>
        case PatientEmail =>
        case PatientPhone =>
        case PatientDOB =>
        case DoctorId =>
        case Date =>
        case Time =>
        case Reason =>
        case Notes =>
      }
    }
  }

  /** A name, phone or reason that trims to the empty string (for instance
      one made only of spaces) is rejected with its message. */
  lemma WhitespaceOnlyRejected(f: FormData)
    ensures Trim(f.patientName) == [] ==> PatientName in Errors(f) && Errors(f)[PatientName] == NameRequired
    ensures Trim(f.patientPhone) == [] ==> PatientPhone in Errors(f) && Errors(f)[PatientPhone] == PhoneRequired
    ensures Trim(f.reason) == [] ==> Reason in Errors(f) && Errors(f)[Reason] == ReasonRequired
  {
    TrimSpec(f.patientName);
    TrimSpec(f.patientPhone);
    TrimSpec(f.reason);
    ErrorKeys(f);
    ErrorMessages(f);
  }

  /** Date of birth, doctor, date and time are checked for presence only: any
      non-empty value passes, a single blank space included. */
  lemma PresenceOnlyFields(f: FormData)
    ensures f.patientDOB != "" ==> PatientDOB !in Errors(f)
    ensures f.doctorId != "" ==> DoctorId !in Errors(f)
    ensures f.date != "" ==> Date !in Errors(f)
    ensures f.time != "" ==> Time !in Errors(f)
    ensures var g := f.(patientDOB := " ", doctorId := " ", date := " ", time := " ");
      PatientDOB !in Errors(g) && DoctorId !in Errors(g) && Date !in Errors(g) && Time !in Errors(g)
  {
    InErrors(f, PatientDOB);
    InErrors(f, DoctorId);
    InErrors(f, Date);
    InErrors(f, Time);
  }

  /** The notes never affect validation. */
  lemma NotesIgnored(f: FormData, v: string)
    ensures Errors(WithValue(f, Notes, v)) == Errors(f)
  {
    var g := WithValue(f, Notes, v);
    forall k ensures Rule(g, k) == Rule(f, k) {
      assert Value(g, k) == Value(f, k) || k == Notes;
    }
  }
}
