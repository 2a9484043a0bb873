# Dental appointment console — a Dafny model

This project models the state logic of the appointment console in
`project/src/App.tsx`, a single React component for a dental clinic. It has
three record types: patients, doctors and appointments. Four doctors are
hard-coded. The component's state is:

- the current view;
- the patient and appointment lists;
- the search term and the status selector of the list view;
- the nine-field new-appointment form;
- the map from form field to error message.

The model has five modules:

- `Text`: the JavaScript string operations the component uses, with their
  JavaScript meaning:
  - `trim`, over the ECMAScript white-space and line-terminator set;
  - `toLowerCase`, restricted to ASCII and Latin-1;
  - `includes`;
  - the unanchored e-mail test `/\S+@\S+\.\S+/`. It is a left-to-right
    scanner, proved equal to the regular expression's meaning.
- `Seqs`: `Array.prototype.find` and `Array.prototype.filter` over sequences.
- `Form`: the form record, the field keys and the nine messages. It also
  holds two descriptions of the error map:
  - the checks of `validateForm` as a table of lines, folded left to right
    (`CheckAt`, `Checked`);
  - an independent rule per field (`Rule`, `Errors`).

  The two are proved equal, and the message and acceptance properties are
  proved about `Errors`.
- `Clinic`: the records, the roster, the seed data, the two lookups and the
  two derived lists: the filtered list view and today's appointments.
- `Console`: the component as a class `App` with one field per state
  variable. `ValidateForm` and `HandleSubmit` are methods that change those
  fields. `CollectErrors` runs the nine checks one line at a time through
  `SetIf`; each line is proved to match the corresponding line of the table.

`Date.now()` is modelled by two string parameters of `HandleSubmit`, one for
each call. They are not assumed distinct from each other or from existing
ids. The value of `new Date().toISOString().split('T')[0]` is the `today`
parameter of `TodayAppointments`.

## Model

| member | source | states |
|---|---|---|
| Text.TrimStartSpec | project/src/App.tsx:95 | the `trim` helper drops exactly the leading white space: the result is a suffix of the input, does not start with white space, and everything before it is white space |
| Text.TrimEndSpec | project/src/App.tsx:95 | the same for trailing white space and a prefix |
| Text.TrimSpec | project/src/App.tsx:95-103 | `trim()` gives a contiguous slice of the input that neither starts nor ends with white space; it is empty, so `!s.trim()` holds, exactly when the input is blank: empty, or white space only |
| Text.LowerChar | project/src/App.tsx:164-165 | `toLowerCase` on one character maps `A`–`Z` and the Latin-1 capitals U+00C0–U+00DE other than U+00D7 to their lower-case forms, 32 code points up. It leaves U+00D7 and every character outside those ranges unchanged, and never returns a capital of the modelled ranges |
| Text.LowerIdempotent | project/src/App.tsx:164-165 | lowering twice is the same as lowering once |
| Text.Includes | project/src/App.tsx:164-165 | `includes` holds exactly when the needle occurs at some position of the string |
| Text.DomainDotSpec | project/src/App.tsx:97 | the part after `@` passes exactly when some `.` has at least one non-white-space character before it and one after it, all inside one non-white-space run |
| Text.EmailTestSpec | project/src/App.tsx:97 | the scanner succeeds exactly when some `@` has a non-white-space character before it and a valid domain part after it |
| Text.EmailTestIsPattern | project/src/App.tsx:97 | the e-mail test holds exactly when `/\S+@\S+\.\S+/` matches somewhere in the string |
| Text.EmailTestNotBlank | project/src/App.tsx:96-97 | a string that passes the e-mail test is not blank |
| Seqs.Find | project/src/App.tsx:154 | `find` returns None exactly when no element satisfies the predicate; otherwise it returns the element at the first matching index |
| Seqs.FindIsFirst | project/src/App.tsx:154-160 | at the first matching index, `find` returns that element |
| Seqs.FilterSubsequence | project/src/App.tsx:163-170 | `filter` returns a subsequence of its input, in the input's order |
| Seqs.FilterCounts | project/src/App.tsx:163-170 | `filter` keeps each element satisfying the predicate as often as it occurs, and drops every other element |
| Seqs.FilterMembers | project/src/App.tsx:163-170 | the elements of a filter are exactly the input's elements that satisfy the predicate |
| Seqs.FilterSnoc | project/src/App.tsx:170 | filtering a list extended by one element gives the old result, plus that element when it is kept |
| Seqs.FilterKeepsAll | project/src/App.tsx:163-168 | a filter that keeps every element returns its input unchanged |
| Seqs.FilterCongruent | project/src/App.tsx:163-168 | filters whose predicates agree on the list give the same result |
| Seqs.FilterLength | project/src/App.tsx:170 | the length of a filter is the number of positions whose element is kept |
| Form.WithValue | project/src/App.tsx:295-435 | the spread `{...formData, k: v}` sets field `k` to `v` and leaves every other field as it was |
| Form.CheckedLookup | project/src/App.tsx:93-103 | after the first `n` lines of `validateForm`, a key has an entry exactly when one of those lines failed on it; the entry is the last such line's message |
| Form.LastFailureIsRule | project/src/App.tsx:95-103 | after all nine lines, each field's last failing line gives the message of that field's own rule; for the e-mail, the format message wins over the "required" message |
| Form.CheckedIsErrors | project/src/App.tsx:92-103 | running all nine lines of `validateForm` on an empty map gives the per-field error map |
| Form.ErrorKeys | project/src/App.tsx:92-106 | the error map has a key exactly for each failed check, in both directions: blank name, phone or reason; blank e-mail or one failing the e-mail test; empty date of birth, doctor, date or time. It never has a key for the notes |
| Form.ErrorsEmptyIffAcceptable | project/src/App.tsx:105-106 | the error map is empty exactly when the form is acceptable |
| Form.ErrorMessages | project/src/App.tsx:95-103 | each key present in the map holds the message of its own check; the e-mail key holds `Email inválido` |
| Form.EmailMessage | project/src/App.tsx:96-97 | a blank e-mail ends with `Email inválido`, because line 97 overwrites line 96; no entry ever holds `El email es requerido` |
| Form.WhitespaceOnlyRejected | project/src/App.tsx:95-103 | a name, phone or reason that trims to the empty string, such as one of spaces only, is rejected with its message |
| Form.PresenceOnlyFields | project/src/App.tsx:99-102 | date of birth, doctor, date and time are checked only for presence: any non-empty value passes, a single space included |
| Form.NotesIgnored | project/src/App.tsx:92-106 | changing the notes never changes the error map |
| Clinic.GetPatientName | project/src/App.tsx:153-156 | returns the name of the first patient with the id, or `Paciente no encontrado` when no patient has it |
| Clinic.GetDoctorName | project/src/App.tsx:158-161 | returns the name of the first roster doctor with the id, or `Doctor no encontrado` when none has it |
| Clinic.RosterLookup | project/src/App.tsx:30-35 | ids `1`–`4` name the four roster doctors; every other id gives the fallback |
| Clinic.AppendedDuplicateIdShadowed | project/src/App.tsx:153-156 | an appended patient whose id is already taken is never found: the lookup still returns the earlier patient's name |
| Console.App.ShownPatientNames | project/src/App.tsx:153-156 | while the state is valid, every listed appointment shows the name of a listed patient with its id |
| Clinic.LinkedNameFound | project/src/App.tsx:153-156 | while every appointment refers to a listed patient, the name shown for each appointment is the name of a patient with its id |
| Clinic.FilteredAppointments | project/src/App.tsx:163-168 | the list view is an order-preserving subsequence of the appointments. It holds exactly those whose lowered patient name or lowered doctor name contains the lowered term, and whose status passes the selector. Each is kept as often as it occurs |
| Clinic.EmptySearchListsAll | project/src/App.tsx:163-168 | an empty term with `all` lists every appointment, in order |
| Clinic.SearchIgnoresCase | project/src/App.tsx:164-165 | two terms that lower to the same text select the same appointments |
| Clinic.OnlyScheduledListed | project/src/App.tsx:166 | while every appointment is `programada`, the `completada` and `cancelada` selectors list nothing |
| Clinic.TodayAppointments | project/src/App.tsx:170 | today's list is an order-preserving subsequence holding exactly the appointments whose date string equals `today` |
| Clinic.TodayCount | project/src/App.tsx:170 | the length of today's list is the number of appointments dated `today` |
| Clinic.TodayCountAppend | project/src/App.tsx:170 | appending an appointment raises today's count by one when it is dated `today`, and leaves the count unchanged otherwise |
| Clinic.SampleNames | project/src/App.tsx:60-90 | the names the seed data shows for the two seed appointments |
| Clinic.SampleMatches | project/src/App.tsx:163-168 | of the seed appointments, only the second matches the term `ruiz` |
| Clinic.SampleSearch | project/src/App.tsx:163-168 | on the seed data, the term `ruiz` lists only the appointment with Dr. Carlos Ruiz |
| Clinic.SampleSearchCancelled | project/src/App.tsx:166 | adding the `cancelada` selector to that search empties the list |
| Console.App.constructor | project/src/App.tsx:38-57 | the initial state: the dashboard, empty lists, an empty term, the `all` selector, the empty form and no errors |
| Console.App.LoadSampleData | project/src/App.tsx:60-90 | the mount effect replaces both lists with the seed data; the result keeps the invariant |
| Console.App.ValidateForm | project/src/App.tsx:92-107 | stores the error map of the current form, keeps the invariant, and returns true exactly when the form is acceptable |
| Console.App.HandleSubmit | project/src/App.tsx:109-151 | a rejected form changes only the error map. An accepted form appends one patient and one linked appointment at the ends of the lists, keeps all earlier entries in order, copies the form fields verbatim into them, sets status `programada`, resets the form and shows the appointment list. The invariant is preserved |
| Console.App.Navigate | project/src/App.tsx:196 | the navigation buttons set the current view and keep the invariant |
| Console.App.SetSearchTerm | project/src/App.tsx:493 | the search box sets the term and keeps the invariant |
| Console.App.SetFilterStatus | project/src/App.tsx:507 | the selector sets the status filter and keeps the invariant |
| Console.App.EditField | project/src/App.tsx:295 | each input's change handler replaces one form field and keeps the invariant |
| Console.CollectErrors | project/src/App.tsx:93-103 | the nine conditional assignments, run in source order on an empty map, give the per-field error map |
| Console.SetIf | project/src/App.tsx:95-103 | one conditional assignment `if (failed) errors[k] = message` performs the next line of the `validateForm` table |
| Console.LinkedAfterSubmit | project/src/App.tsx:114-134 | appending a patient and an appointment that refers to it, with status `programada`, keeps every appointment linked to a patient and scheduled |

## Left out

- `procesar_cita.php` is not part of this model. It is database I/O: SQL
  built as strings, escaping, insert ids, echoed HTML and date formatting.
  None of it is visible without the database.
- All JSX rendering, CSS classes, icons and the navigation map, the
  `alert` after a submit, and the `e.preventDefault()` call of the submit
  event (`project/src/App.tsx:110,149,172-626`). The event
  handlers the markup installs are kept: `Navigate`, `SetSearchTerm`,
  `SetFilterStatus` and `EditField`.
- `Date.now()` and its conversion to a string: the two ids are parameters.
  The model does not constrain their format or require them to be unique.
- `new Date().toISOString().split('T')[0]`: today's date string is a
  parameter.
- Text.LowerChar: restricted to ASCII `A`–`Z`, and to the Latin-1
  upper-case letters U+00C0–U+00DE other than U+00D7, each mapped 32 code
  points up. Every other character is left unchanged, so the model is
  weaker than full Unicode `toLowerCase`: it leaves out other scripts,
  special cases such as U+0130, and mappings that change the length.
- Strings: JavaScript strings are sequences of UTF-16 code units, while a
  Dafny `string` is a sequence of Unicode scalar values. For well-formed
  strings, `trim`, `includes`, the e-mail pattern (which has no `u` flag) and
  `toLowerCase` give the same results under either view. Strings holding
  lone surrogates cannot be represented.
- React's batching and asynchronous state updates: `HandleSubmit` is one
  atomic transition. The updater forms `prev => [...prev, x]` are modelled
  as appends to the current lists.
- The `available` and `specialty` fields of the roster are data only; no
  operation reads them.
- The seed data is a constant and is loaded by `LoadSampleData`. Two kinds
  of property are proved about it: the search examples, and the invariant
  `LoadSampleData` establishes, that every seed appointment refers to a seed
  patient and is `programada`. Nothing else is proved about it.
