# Record stores of python_project2025, modelled in Dafny

The repository is a set of small command-line scripts. Each keeps an in-memory record
store and offers validated insert, "leave blank to keep" edit, delete, case-insensitive
search and a few small state machines around it:

- three task managers: `todo.py`, `task_manager.py` and `task_manager_bug.py`;
- four library stores: `book_oop.py`, `book_system.py`, `book_management.py` and
  `book_oop2.py`, the last with users, a login and a loan ledger;
- a school register: `school_system.py`;
- two hospital stores: `hospital.py` and `project_1.py`;
- a password validator with a bounded history: `password_bugs.py`.

This project models that store logic apart from the menus, `input()`, `print()` and
the JSON files. Each script is one Dafny module with the same name in PascalCase.
Objects that the script updates in place are classes. A dict becomes a `PyDict.Dict`,
which is a map plus the insertion order of its keys. A mutating method says exactly what
the new state is. Exceptions become `Result`/`Outcome` values. The checks are kept in the
order the code makes them, so a partial update before a raise stays visible.

Shared modules:
- `Common`: the `Option`, `Result` and `Outcome` datatypes.
- `Text`: ASCII `isdigit`, `int()`, `str()`, `lower`, `in`, `strip` and `split`.
- `Ids`: the random retry loop for fresh ids, as a choice of a free id in range.
- `Dates`: `datetime.date` with its ISO form.
- `PyDict`: the insertion-ordered dict.
- `PyValue`: the values found in `to_dict` dicts.
- `Tasks`: the logic the three task files share.
- `Library`: the logic the three small library files share.

Behaviour that looks like a bug is modelled as written and stated as the contract:
- the `edit_book` of `book_system.py` never changes the copies, and writes only when the
  shelf choice is invalid;
- the admin check of `add_book` in `book_oop2.py` is never made;
- `book_oop.py` stores the copies as text, so a later borrow of that book raises;
- `book_oop2.py` accepts shelf choices -2..0 through Python's negative indexing;
- `book_system.py` tags search hits with their position among all books;
- `password_bugs.py` accepts "password123".

Inputs are parameters, already stripped where the script strips them. Today's date is a
parameter: a `Dates.ValidDate` for the task files, and an integer day number in
`book_oop2.py`. `float()` in `school_system.py` is a parameter `parse`.

## Model

| member | source | states |
|---|---|---|
| Tasks.CheckNew | todo.py:27-32 | the constructor checks priority, then status, then the due date; it passes iff the priority and status are allowed and the due date is not before today |
| Tasks.ApplyDetails | todo.py:68-83 | an empty argument keeps its field; title and description are set before any check; the call passes iff each supplied date, priority and status is acceptable; the error raised is the first failing check, in the order due date, priority, status; a rejected value is not stored, nothing after it changes, and supplied values before it (due date, then priority) stay assigned |
| Tasks.SelectMembership | todo.py:162-176 | a row is listed iff it is the row of a stored task that passes both filters, a `None` filter passing everything |
| Tasks.SelectConcat | todo.py:165-175 | listing keeps dict order: the rows of a longer key run are the rows of its parts in turn |
| Tasks.SelectUnfiltered | todo.py:166-167 | with no filter, every stored task is listed |
| Tasks.ToDict | task_manager_bug.py:47-56 | exactly the six keys, the text fields as stored and both dates in ISO form (also `to_dict` of task_manager.py:42-50) |
| Todo.Task.Init | todo.py:34-38 | the task holds exactly the given details |
| Todo.Task.New | todo.py:13-38 | raises exactly when `CheckNew` fails, with its error; otherwise a fresh, valid task holding the five given fields |
| Todo.Task.UpdateStatus | todo.py:40-51 | an invalid status raises and changes nothing; a valid one sets the status and nothing else |
| Todo.Task.UpdateDetails | todo.py:53-83 | the new details and the outcome are those of `ApplyDetails` on the old details |
| Todo.OkAfterPut | todo.py:131-132 | storing a valid new task under the counter and moving the counter on keeps every id below the counter and every task valid and distinct |
| Todo.ViewOfPut | todo.py:131 | storing a task under a new id adds exactly its details to the store's view |
| Todo.OkAfterRemove | todo.py:150 | deleting a key keeps the store's invariant |
| Todo.ViewOfRemove | todo.py:150 | deleting a key removes exactly that entry from the view |
| Todo.TaskManager.constructor | todo.py:124-126 | an empty store with counter 1 |
| Todo.TaskManager.Store | todo.py:131-133 | the id is the old counter and was not stored; the task is appended under it; the counter grows by one |
| Todo.TaskManager.AddTask | todo.py:128-133 | succeeds iff the constructor's checks pass; the returned id is the old counter, was fresh and now holds the given details; the counter grows by exactly one; a rejection changes nothing |
| Todo.TaskManager.OnlyOneChanged | todo.py:141-145 | updating one stored task in place changes only that entry of the view and keeps the invariant |
| Todo.TaskManager.GetTask | todo.py:135-137 | `None` iff the id is not stored, otherwise the stored task; never raises |
| Todo.TaskManager.UpdateTaskStatus | todo.py:139-145 | `False` and no change for an unknown id; for a stored id an invalid status raises instead; otherwise only that task's status changes |
| Todo.TaskManager.DeleteTask | todo.py:147-152 | `True` iff the id was stored; only that key goes; `False` leaves the store unchanged |
| Todo.TaskManager.Drop | todo.py:150 | the key is deleted, keys keep their order and the counter is unchanged |
| Todo.TaskManager.UpdateTaskDetails | todo.py:154-160 | `False` and no change for an unknown id; otherwise only that task changes, as `ApplyDetails` says, and a rejected value raises |
| Todo.TaskManager.ListTasks | todo.py:162-176 | the rows `Select` lists from the keys in insertion order |
| TaskManager.Decode | task_manager.py:53-59 | succeeds iff the four keys are present, title and description are text, the due date is ISO text of a day not before today and the priority is an allowed text; `BadDate` means the due date is not ISO text, and `InvalidPriority` that the priority is not allowed; a decoded task is always "To Do", created today, with an allowed priority and a due date not before today; its title, description, priority and due date are those stored under their keys; a missing key is reported by name, and it is the first absent one in the order title, description, due date, priority; a past due date is rejected |
| TaskManager.FromDictToDict | task_manager.py:42-59 | reading back what `to_dict` wrote keeps title, description, due date and priority, resets the status to "To Do" and the creation date to today, and fails if the due date has passed |
| TaskManager.Task.Init | task_manager.py:15-20 | the task holds exactly the given details and creation date |
| TaskManager.Task.New | task_manager.py:10-20 | raises iff the priority is not allowed or the due date is past, priority first; otherwise "To Do", created today |
| TaskManager.Task.FromDict | task_manager.py:52-59 | raises iff `Decode` fails; otherwise a fresh task with the decoded fields |
| TaskManager.Task.UpdateStatus | task_manager.py:22-25 | an invalid status raises and changes nothing; otherwise only the status changes |
| TaskManager.Task.UpdateDetails | task_manager.py:27-40 | `ApplyDetails` with no status argument; the creation date is kept |
| TaskManager.OkAfterPut | task_manager.py:69-70 | storing under the counter and moving it on keeps the store's invariant |
| TaskManager.ViewOfPut | task_manager.py:69 | storing under a new id adds exactly that task's details to the view |
| TaskManager.OkAfterRemove | task_manager.py:92 | deleting a key keeps the store's invariant |
| TaskManager.ViewOfRemove | task_manager.py:92 | deleting a key removes exactly that entry from the view |
| TaskManager.TaskManager.constructor | task_manager.py:62-64 | an empty store with counter 1 |
| TaskManager.TaskManager.Store | task_manager.py:69-71 | the id is the old counter and was not stored; the task is appended under it; the counter grows by one |
| TaskManager.TaskManager.AddTask | task_manager.py:66-71 | succeeds iff the priority is allowed and the due date not past; the id is the old counter and exceeds every stored id; the task is "To Do", created today; a rejection raises `InvalidPriority` before `PastDueDate` and changes nothing |
| TaskManager.TaskManager.OnlyOneChanged | task_manager.py:76-88 | updating one stored task in place changes only that entry of the view and keeps the invariant |
| TaskManager.TaskManager.GetTask | task_manager.py:73-74 | `None` iff the id is not stored, otherwise the stored task |
| TaskManager.TaskManager.UpdateTaskStatus | task_manager.py:76-81 | `False` and no change for an unknown id; an invalid status raises; otherwise only that status changes; the task's creation date is kept |
| TaskManager.TaskManager.UpdateTaskDetails | task_manager.py:83-88 | `False` and no change for an unknown id; otherwise only that task changes, as `ApplyDetails` says, and its creation date is kept |
| TaskManager.TaskManager.DeleteTask | task_manager.py:90-94 | `True` iff the id was stored; only that key goes; otherwise nothing changes |
| TaskManager.TaskManager.Drop | task_manager.py:92 | the key is deleted, keys keep their order and the counter is unchanged |
| TaskManager.TaskManager.ListTasks | task_manager.py:96-109 | the rows `Select` lists, in insertion order, with both filters applied together |
| TaskManagerBug.Task.Init | task_manager_bug.py:18-23 | the task holds exactly the given details and creation date |
| TaskManagerBug.Task.New | task_manager_bug.py:11-23 | raises exactly when `CheckNew` fails, with its error; otherwise the five fields as given, created today |
| TaskManagerBug.Task.UpdateStatus | task_manager_bug.py:26-30 | only the three statuses are accepted; a rejected one changes nothing |
| TaskManagerBug.Task.UpdateDetails | task_manager_bug.py:32-45 | `ApplyDetails` with no status argument; status and creation date never change |
| Library.ShelfChoice | book_oop.py:61-65 | a shelf iff the answer is a digit string with value 1..3, and then the shelf listed at that number |
| Library.ShelfChoiceOfMenu | book_oop.py:54-57 | typing the number shown next to a shelf selects that shelf |
| Library.CheckRegistration | book_system.py:49-64 | copies are checked first, then the shelf; it passes iff the copies are a positive digit string and the choice is 1..3, yielding their value and the shelf |
| Library.MatchingMembership | book_oop.py:159-163 | a pair is found iff its book is stored under that id and its lower-cased title or author contains the term |
| BookOop.EditKeepsBook | book_oop.py:104-134 | an edit with every answer empty or invalid keeps the book; repeating an edit changes nothing more |
| BookOop.BookManagementSystem.constructor | book_oop.py:6-7 | an empty store |
| BookOop.BookManagementSystem.GenerateId | book_oop.py:34-39 | the id is `str(n)` for some n in 10000..99999 and is not a key |
| BookOop.BookManagementSystem.RegisterBook | book_oop.py:41-75 | refused with the first failing check and no change; otherwise exactly one new key, holding the copies as the typed digit text |
| BookOop.BookManagementSystem.EditBook | book_oop.py:84-134 | nothing for an empty or unknown id; otherwise only that book is rewritten in place, by `EditRecord` |
| BookOop.BookManagementSystem.DeleteBook | book_oop.py:137-148 | nothing for an empty or unknown id; otherwise only that key goes |
| BookOop.BookManagementSystem.SearchBook | book_oop.py:150-163 | an empty term is refused; otherwise the books that `Matching` finds, in dict order |
| BookOop.BookManagementSystem.BorrowBook | book_oop.py:179-199 | nothing for an empty or unknown id; copies still held as text raise; a count above zero loses exactly one; otherwise nothing changes |
| BookSystem.TaggedMembership | book_system.py:156-159 | a tagged hit is a 1-based position among all books whose book mentions the term |
| BookSystem.TaggedIncreasing | book_system.py:157-159 | tags strictly increase and never exceed the number of books |
| BookSystem.BookStore.constructor | book_system.py:6 | an empty store |
| BookSystem.BookStore.GenerateBookId | book_system.py:31-36 | the id is `str(n)` for some n in 10000..99999 and is not a key |
| BookSystem.BookStore.RegisterBook | book_system.py:38-75 | refused with the first failing check and no change; otherwise exactly one new key, with copies as a number |
| BookSystem.BookStore.EditBook | book_system.py:80-135 | the copies and the shelf never change; a valid shelf choice writes nothing; an invalid one applies the text edits to that book only |
| BookSystem.BookStore.DeleteBook | book_system.py:137-145 | `True` iff the id was stored; only that key goes |
| BookSystem.BookStore.SearchBook | book_system.py:147-159 | an empty term is refused; otherwise the hits of `Tagged`, in dict order |
| BookSystem.BookStore.BorrowBook | book_system.py:191-210 | copies drop by exactly one iff the book exists and has copies; otherwise nothing changes |
| BookManagement.BookStore.constructor | book_management.py:6 | an empty store |
| BookManagement.BookStore.GenerateBookId | book_management.py:31-36 | the id is `str(n)` for some n in 10000..99999 and is not a key |
| BookManagement.BookStore.RegisterBook | book_management.py:38-75 | refused for bad copies, then for a bad shelf, with no change; otherwise exactly one new key with int copies and the chosen shelf |
| BookOop2.LoanCounted | book_oop2.py:227-234 | a new loan adds one to that book's count of outstanding loans and leaves every other book's count unchanged |
| BookOop2.ReturnCounted | book_oop2.py:280-284 | a return takes one off that book's outstanding count and leaves the others |
| BookOop2.LedgerEntriesNonEmpty | book_oop2.py:280-284 | after a loan or a return no user maps to an empty ledger |
| BookOop2.Recount | book_oop2.py:236 | that book's copies move by the given amount, its other fields are kept, and every other book is unchanged |
| BookOop2.BorrowConserves | book_oop2.py:227-236 | a borrow keeps every book's copies plus outstanding loans, and keeps the ledger consistent |
| BookOop2.ReturnConserves | book_oop2.py:279-284 | a return keeps every book's copies plus outstanding loans, and keeps the ledger consistent |
| BookOop2.FirstMatch | book_oop2.py:72-76 | `None` iff no user matches both username and password; otherwise the first match in dict order |
| BookOop2.FoundMembership | book_oop2.py:182-186 | a pair is found iff it is a stored book selected by the choice and term |
| BookOop2.DaysLate | book_oop2.py:270-275 | positive iff the return is after the due date, and then the number of days between them |
| BookOop2.ShelfAt | book_oop2.py:137-142 | `locations[choice - 1]` with Python's negative indexing |
| BookOop2.BookManagementSystem.constructor | book_oop2.py:9-13 | the given data, nobody logged in |
| BookOop2.BookManagementSystem.Login | book_oop2.py:61-83 | "exit" in any case quits; otherwise the first user with both username and password logs in, unless that user id is empty (falsy); a miss is a retry; the data never changes |
| BookOop2.BookManagementSystem.RegisterUser | book_oop2.py:86-112 | refused iff the username is taken, with no change; otherwise one new user under a fresh "USER"+1000..9999 id, role "user", status "active" |
| BookOop2.BookManagementSystem.IsAdmin | book_oop2.py:398-402 | true iff a user is logged in under a non-empty registered id whose role is "admin"; the later definition replaces the one at lines 118-121 |
| BookOop2.BookManagementSystem.AddBook | book_oop2.py:123-156 | nobody is ever refused as not admin, since line 125 tests the method object rather than its result: a caller who is not an admin succeeds on exactly the same input; bad copies or a choice outside -2..3 adds nothing; otherwise one new book under a fresh "BOOK" id |
| BookOop2.BookManagementSystem.SearchBook | book_oop2.py:166-186 | choice "4" lists every book; otherwise exactly the books `Found` selects, in dict order |
| BookOop2.BookManagementSystem.BorrowBook | book_oop2.py:200-236 | changes nothing unless a user is logged in, the book exists and has copies, and the user does not hold it; then one loan due in 14 days and one copy fewer; stock is conserved |
| BookOop2.BookManagementSystem.Lend | book_oop2.py:224-236 | the loan is recorded, one copy is taken off and every book's stock is conserved |
| BookOop2.BookManagementSystem.ReturnBook | book_oop2.py:242-284 | changes nothing without a login, a non-empty ledger or that loan; otherwise one copy back, the loan deleted, an empty entry removed, days late reported; stock is conserved |
| BookOop2.BookManagementSystem.TakeBack | book_oop2.py:279-284 | the loan is deleted, one copy goes back, an emptied entry is removed and stock is conserved |
| SchoolSystem.ValidateName | school_system.py:39-45 | true iff the name matches the letters-and-spaces pattern and has 2..50 characters |
| SchoolSystem.ValidateStrippedName | school_system.py:39-45 | for a stripped name: true iff it is only ASCII letters and spaces and has 2..50 characters |
| SchoolSystem.EntryGrade | school_system.py:123-131 | an entry counts iff it splits on ":" into exactly two parts whose grade parses into 0..100 |
| SchoolSystem.EntriesStopAtDone | school_system.py:118-121 | nothing typed after "done" is read |
| SchoolSystem.EntriesKeepRange | school_system.py:128-132 | grades stay in 0..100 and no subject is ever dropped |
| SchoolSystem.SchoolSystem.constructor | school_system.py:11 | no students |
| SchoolSystem.SchoolSystem.GenerateId | school_system.py:47-52 | the id is `str(n)` for some n in 10000..99999 and is not a key |
| SchoolSystem.SchoolSystem.AddStudent | school_system.py:54-74 | refused iff the name is empty, invalid or taken ignoring case, with no change; otherwise one fresh id with the name and no grades |
| SchoolSystem.SchoolSystem.AddGrade | school_system.py:80-104 | nothing for an empty or unknown id, an empty subject, or a grade that does not parse or is out of range; otherwise only that student's subject is set |
| SchoolSystem.SchoolSystem.AddMultipleGrade | school_system.py:106-136 | nothing for an empty or unknown id; otherwise that student's grades become `ApplyEntries` of the entries |
| Hospital.TextAt | hospital.py:106-109 | text iff the key is present with a text value; otherwise which of the two failed |
| Hospital.User.constructor | hospital.py:2-9 | the three given fields |
| Hospital.User.UpdateContactInfo | hospital.py:11-13 | only the contact changes; authentication is unaffected |
| Hospital.User.Authenticate | hospital.py:22-27 | true iff the given password equals the stored one |
| Hospital.WithSlots | hospital.py:41-50 | an existing date gets the slots appended in order, a new date gets the slots; other dates are unchanged |
| Hospital.WithSlotsTwice | hospital.py:47-48 | adding two batches to a date equals adding them joined |
| Hospital.Doctor.constructor | hospital.py:31-39 | a fresh account with the given login, and no availability |
| Hospital.Doctor.AddAvailability | hospital.py:41-50 | the availability becomes `WithSlots` of the old one; name and specialty are kept |
| Hospital.Doctor.UpdateAvailability | hospital.py:52-57 | only the given date's slots are replaced |
| Hospital.PatientFromDict | hospital.py:103-114 | succeeds iff username, password and contact_info hold text and any history is a list; the login fields and a present history are those stored under their keys; a missing name or age is `None` and a missing history is empty; a missing key is the first absent one in the order the constructor reads them |
| Hospital.PatientRoundTrip | hospital.py:92-114 | `from_dict(to_dict(p))` reproduces every field |
| Hospital.Patient.constructor | hospital.py:72-76 | the given fields and an empty history |
| Hospital.Patient.AddMedicalHistory | hospital.py:78-80 | exactly one entry is appended at the end |
| Hospital.Patient.FromDict | hospital.py:103-114 | fails iff `PatientFromDict` fails; otherwise a fresh patient with its fields |
| Hospital.AppointmentFromDict | hospital.py:175-187 | succeeds iff all six keys hold text; the fields are those stored under their keys; a missing key is the first absent one in the order the constructor reads them; the status is always "Scheduled" |
| Hospital.AppointmentRoundTrip | hospital.py:161-187 | reading back `to_dict` keeps every field but resets the status to "Scheduled" |
| Hospital.Appointment.constructor | hospital.py:121-131 | the given fields and status "Scheduled" |
| Hospital.Appointment.Reschedule | hospital.py:133-139 | sets date, time and "Rescheduled", nothing else |
| Hospital.Appointment.Cancel | hospital.py:141-145 | sets only the status, to "Canceled" |
| Hospital.Appointment.FromDict | hospital.py:175-187 | fails iff `AppointmentFromDict` fails; otherwise a fresh appointment with its fields |
| Hospital.MedicationsToList | hospital.py:238-244 | one dict per medication, in order, each `MedicationToDict` of it |
| Hospital.MedicationsFromList | hospital.py:246-257 | succeeds iff every entry is a medication dict, and then entry i decodes to medication i; otherwise the index of the first malformed entry, all before it well-formed |
| Hospital.MedicationRoundTrip | hospital.py:238-257 | one medication written out as a dict reads back unchanged |
| Hospital.MedicationsRoundTrip | hospital.py:234-257 | medications written and read back are the same list |
| Hospital.PrescriptionFromDict | hospital.py:246-257 | succeeds iff the four text keys hold text and the medications are a list of medication dicts; the fields, and each medication, are those stored; a missing key is the first absent one in the order the constructor reads them |
| Hospital.PrescriptionRoundTrip | hospital.py:234-257 | `from_dict(to_dict(x))` reproduces every field |
| Hospital.Prescription.constructor | hospital.py:193-207 | the given fields |
| Hospital.Prescription.AddMedication | hospital.py:209-220 | exactly one medication is appended at the end |
| Hospital.Prescription.FromDict | hospital.py:246-257 | fails iff `PrescriptionFromDict` fails; otherwise a fresh prescription with its fields |
| Hospital.UntilDone | hospital.py:320-327 | the entries before the first one named "done" in any case: a prefix without "done", stopped only at "done" |
| Hospital.CollectMedications | hospital.py:320-327 | the loop collects exactly `UntilDone` of the entries |
| Hospital.Clinic.constructor | hospital.py:263-266 | four empty stores |
| Hospital.Clinic.CreatePatient | hospital.py:268-278 | a new patient stored or overwritten under the username; nothing else changes |
| Hospital.Clinic.CreateDoctor | hospital.py:280-290 | a new doctor with the given username, password, contact, name and specialty and no availability, stored or overwritten under the username; nothing else changes |
| Hospital.Clinic.ScheduleAppointment | hospital.py:292-307 | stored iff both doctor and patient are registered, then inserted or overwritten under its id; otherwise nothing changes |
| Hospital.Clinic.IssuePrescription | hospital.py:309-331 | stored iff both are registered, with the medications before "done"; otherwise nothing changes |
| Project1.FirstMeaning | project_1.py:68-73 | `None` iff no element has the id; otherwise the element at the first index with it |
| Project1.FirstAfterAppend | project_1.py:63-73 | appending keeps an earlier match and finds the new element only when none matched before |
| Project1.Hospital.constructor | project_1.py:57-60 | three empty lists |
| Project1.Hospital.AddPatient | project_1.py:63-66 | exactly one patient appended at the end; the rest is unchanged |
| Project1.Hospital.SearchPatient | project_1.py:68-73 | the loop returns `First` of the patients |
| Project1.Hospital.AddDoctor | project_1.py:84-87 | exactly one doctor appended at the end; the rest is unchanged |
| Project1.Hospital.SearchDoctor | project_1.py:89-94 | the loop returns `First` of the doctors |
| Project1.Hospital.BookAppointment | project_1.py:105-119 | appended iff both patient and doctor exist; otherwise the list is unchanged |
| Project1.Hospital.GeneratePatientId | project_1.py:172-177 | `str(n)` for some n in 1000..9999 that no patient uses |
| Project1.Hospital.GenerateDoctorId | project_1.py:179-184 | `str(n)` for some n in 1000..9999 that no doctor uses |
| Project1.Hospital.GenerateAppointmentId | project_1.py:186-191 | `str(n)` for some n in 1000..9999 that no appointment uses |
| PasswordBugs.Recent | password_bugs.py:16-19 | the last five passwords, or all of them when fewer |
| PasswordBugs.RecentThenAdd | password_bugs.py:16-19 | adding to the recent five equals the recent five of the longer list |
| PasswordBugs.AddedAllIsRecent | password_bugs.py:16-19 | after any run of additions the history is the last at most five passwords |
| PasswordBugs.NewestLast | password_bugs.py:17-19 | the history never exceeds five and ends with the newest password |
| PasswordBugs.ForgottenAfterFive | password_bugs.py:16-22 | a password not among the last five added is no longer in the history |
| PasswordBugs.PasswordValidator.constructor | password_bugs.py:2-4 | minimum length 8, empty history |
| PasswordBugs.PasswordValidator.ValidatePassword | password_bugs.py:6-14 | true iff at least 8 characters and no space |
| PasswordBugs.PasswordValidator.AddToHistory | password_bugs.py:16-19 | the history becomes the last five of the old history plus the password, which ends it |
| PasswordBugs.PasswordValidator.CheckHistory | password_bugs.py:21-22 | true iff the password is not among the stored ones |
| PasswordBugs.SamplePasswords | password_bugs.py:24-31 | "password123" and "abcdefgh" are accepted; "Pass word1" and "Short1" are refused |
| Ids.FreshId | book_oop2.py:144-146 | the retry loop ends with `prefix + str(n)`, n in range, not already taken |
| Ids.FreeIdExists | book_oop2.py:100-102 | while fewer ids are taken than the range holds, a free one exists |
| Dates.ParseIso | task_manager.py:57 | a parsed date is a real calendar day |
| Dates.IsoRoundTrip | task_manager.py:46-57 | `fromisoformat(d.isoformat())` is `d` |
| Dates.IsoCanonical | task_manager.py:57 | only the ISO text of a date parses to it |
| Text.Split | school_system.py:124 | one more piece than separators, none containing one, joined back to the input |
| Text.NatToString | book_oop.py:37 | a digit string that reads back as the number, without leading zeros |
| Text.Lower | book_oop.py:153 | same length, each ASCII capital lowered |
| PyDict.Dict.Put | todo.py:131 | a new key goes to the end of the order; an existing key keeps its place |
| PyDict.Dict.Remove | todo.py:150 | the key goes and the others keep their order |
| PyDict.Dict.Get | todo.py:137 | `None` iff the key is absent, else its value |

## Left out

- Menus, prompts, `print` output and `main`/`run`/`main_menu` loops are presentation. The wrong "remaining copies" message of book_oop.py:195 and book_system.py:205 is among them.
- JSON load and save in every script are file I/O, and so are the admin seeding on a load failure (book_oop2.py:17-59) and `save_to_json`/`load_from_json` of project_1.py. The data a script starts from is a constructor parameter, and the merge of `dict.update` is not modelled.
- The report generators of book_oop2.py (324-345, 404-460) and `view_borrowed_book` only print.
- The `view_*` and `display_*` methods of hospital.py and project_1.py only build text for display.
- The `to_dict`/`from_dict` pair of todo.py is used only by its file I/O and is left out. The pair of task_manager.py is modelled.
- The choice of a book to show after `search_book` in book_system.py (lines 169-189) only prints.
- Random ids: the distribution and the probabilistic end of the retry loops are not modelled. Each id generator requires that its range is not exhausted.
- `float` is not modelled. Grades are `real`, `float()` is a parameter `parse`, and the late fee of book_oop2.py:276 is reduced to the integer days late.
- Dates: in the task files they are calendar dates parsed from and written to ISO text. `date.fromisoformat` is modelled as in Python 3.7-3.10, which accepts only `YYYY-MM-DD`; the compact and ISO week forms that Python 3.11 also accepts are reported as `BadDate`. In book_oop2.py they are integer day numbers, and `strftime` is not modelled.
- Text: `isdigit`, `lower` and `strip` cover ASCII only; Unicode digits and case folding are not modelled. Inputs are taken as already stripped.
- Inheritance in hospital.py (`Doctor` and `Patient` are `User`s) is composition: each holds a `const account: User`.
- Hospital.PatientFromDict: Python accepts any value under a key. The model reads back the values `to_dict` writes: text for the login fields and a list for the history. It reports other kinds as `NotText`/`NotList`, which Python would not.
- Hospital.MedicationsFromList: a malformed medication entry is reported as `BadMedication`, where Python would keep any value.
- Hospital.Doctor.AddAvailability: the list objects are values here. When Python stores a caller's list it aliases it, and a later `extend` changes the caller's list too; that sharing is not modelled. The same holds for the medications list of a `Prescription`.
- Hospital.CollectMedications: each `input()` triple is one `Medication` in a finite sequence. If "done" never comes, the loop stops at the end of the sequence instead of waiting for input.
- SchoolSystem.SchoolSystem.AddMultipleGrade: the entries are a finite sequence. A run without "done" ends at its end.
- BookOop2.BookManagementSystem.constructor: the loaded ledger is assumed to lend only catalogued books. Python's `load_data` accepts any ledger, and returning a loan of a book not in the catalogue raises `KeyError` (book_oop2.py:255). The program itself never makes such a loan, since no book is ever deleted.
- BookOop2.BookManagementSystem.Login: one round of the login loop; a retry returns `Retry` instead of prompting again.
- BookOop2.BookManagementSystem.AddBook: `int()` failures of copies and choice are given as `None`, and `int()` of arbitrary text is not modelled.
- BookOop2.BookManagementSystem.SearchBook: the model covers the search but not the print of the results.
- TaskManager.TaskManager.UpdateTaskDetails: the contract does not repeat that the status is kept. It follows from `ApplyDetails` with an empty status argument, which `Tasks.ApplyDetails` states.
- TaskManager.Decode: Python passes any value under "title" and "description" to the constructor. The model reads back the text that `to_dict` writes and reports any other kind as `NotText`, which Python would not raise.
- Hospital.AppointmentFromDict: Python accepts any value under the six keys. The model reads back the text `to_dict` writes and reports any other kind as `NotText`, which Python would not raise.
- Hospital.PrescriptionFromDict: Python accepts any value under the five keys. The model reads back the text and the list of medication dicts that `to_dict` writes, and reports other kinds as `NotText`, `NotList` or `BadMedication`, which Python would not raise.
- SchoolSystem.EntriesKeepRange: the 0..100 range holds for real-valued grades only. `float("nan")` passes the check `grade < 0 or grade > 100` (school_system.py:97, 128), so Python can store NaN; floating point is not modelled.
