/** school_system.py: students kept in a `students` dict shared by the nested functions
    of `school_system()`; here the dict is the field of one object. Numbers typed as
    grades are read by `float()`, which the model takes as a parameter `parse`. */
module SchoolSystem {
  import opened Common
  import opened Text
  import opened Ids

  datatype Student = Student(name: string, grades: map<string, real>)

  predicate IsNameChar(c: char) {
    'a' <= c <= 'z' || 'A' <= c <= 'Z' || c == ' '
  }

  /** One or more ASCII letters or spaces. */
  predicate NameChars(s: string) {
    |s| > 0 && forall i :: 0 <= i < |s| ==> IsNameChar(s[i])
  }

  /** `re.match(r"^[a-zA-Z ]+$", name)`: `$` also matches just before a final newline. */
  predicate MatchesNamePattern(name: string) {
    NameChars(name) || (|name| > 0 && name[|name| - 1] == '\n' && NameChars(name[..|name| - 1]))
  }

  /** `validate_name(name)`: 2 to 50 characters, each an ASCII letter or a space,
      except that the last may be a newline. */
  function ValidateName(name: string): (r: bool)
    ensures r <==> 2 <= |name| <= 50 &&
                   forall i :: 0 <= i < |name| ==> IsNameChar(name[i]) || (i == |name| - 1 && name[i] == '\n')
  {
    if !MatchesNamePattern(name) then false
    else if |name| < 2 || |name| > 50 then false
    else true
  }

  /** A name from `input().strip()` never ends in a newline, so for it the check is
      exactly "2 to 50 letters or spaces". */
  lemma ValidateStrippedName(name: string)
    requires name == [] || !IsSpaceChar(name[|name| - 1])
    ensures ValidateName(name) <==> NameChars(name) && 2 <= |name| <= 50
  {
  }

  /** `any(student["name"].lower() == name.lower() for student in students.values())`. */
  predicate NameTaken(students: map<string, Student>, name: string) {
    exists k :: k in students && Lower(students[k].name) == Lower(name)
  }

  datatype StudentError = EmptyName | InvalidName | DuplicateName
  datatype LookupError = EmptyId | UnknownId | EmptySubject | NotANumber | OutOfRange

  /** What one `subject:grade` entry of `add_multiple_grade` records: it must split on
      ":" into exactly two parts, the second (stripped) must read as a number, and the
      number must lie in 0..100. The subject is stripped and may be empty. */
  function EntryGrade(entry: string, parse: string -> Option<real>): (r: Option<(string, real)>)
    ensures r.Some? <==>
      var parts := Split(entry, ':');
      |parts| == 2 && parse(Strip(parts[1])).Some? && 0.0 <= parse(Strip(parts[1])).value <= 100.0
    ensures r.Some? ==> ':' in entry && 0.0 <= r.value.1 <= 100.0
  {
    var parts := Split(entry, ':');
    if |parts| != 2 then None
    else
      var grade := parse(Strip(parts[1]));
      if grade.None? || grade.value < 0.0 || grade.value > 100.0 then None
      else
        assert Join(parts, ':') == parts[0] + [':'] + parts[1];
        Some((Strip(parts[0]), grade.value))
  }

  /** `entry.lower() == "done"`: the entry that ends the input. */
  predicate IsDone(entry: string) {
    Lower(entry) == "done"
  }

  /** The grades after one entry that is not "done": the subject's grade when
      `EntryGrade` accepts it, else unchanged. */
  function Step(grades: map<string, real>, entry: string, parse: string -> Option<real>): map<string, real> {
    var e := EntryGrade(entry, parse);
    if e.Some? then grades[e.value.0 := e.value.1] else grades
  }

  /** The grades after the entries typed up to the first "done" (in any case). */
  function ApplyEntries(grades: map<string, real>, entries: seq<string>, parse: string -> Option<real>): map<string, real>
    decreases |entries|
  {
    if entries == [] || IsDone(entries[0]) then grades
    else ApplyEntries(Step(grades, entries[0], parse), entries[1..], parse)
  }

  /** Nothing typed after "done" is read. */
  lemma {:induction false} EntriesStopAtDone(grades: map<string, real>, before: seq<string>, done: string,
                                             after: seq<string>, parse: string -> Option<real>)
    requires forall i :: 0 <= i < |before| ==> !IsDone(before[i])
    requires IsDone(done)
    ensures ApplyEntries(grades, before + [done] + after, parse) == ApplyEntries(grades, before, parse)
    decreases |before|
  {
    var all := before + [done] + after;
    if before == [] {
      assert all[0] == done;
    } else {
      assert all[0] == before[0] && !IsDone(before[0]);
      var next := Step(grades, before[0], parse);
      assert all[1..] == before[1..] + [done] + after;
      EntriesStopAtDone(next, before[1..], done, after, parse);
    }
  }

  /** Grades kept in 0..100 stay so, and no subject is ever dropped. */
  lemma {:induction false} EntriesKeepRange(grades: map<string, real>, entries: seq<string>, parse: string -> Option<real>)
    requires forall s :: s in grades ==> 0.0 <= grades[s] <= 100.0
    ensures grades.Keys <= ApplyEntries(grades, entries, parse).Keys
    ensures forall s :: s in ApplyEntries(grades, entries, parse) ==> 0.0 <= ApplyEntries(grades, entries, parse)[s] <= 100.0
    decreases |entries|
  {
    if entries != [] && !IsDone(entries[0]) {
      EntriesKeepRange(Step(grades, entries[0], parse), entries[1..], parse);
    }
  }

  class SchoolSystem {
    var students: map<string, Student>

    constructor ()
      ensures students == map[]
    {
      students := map[];
    }

    /** `generate_id()`: a 5-digit number, as text, that is not yet a key. */
    method GenerateId() returns (id: string)
      requires |students| <= 89999
      ensures id !in students
      ensures exists n: nat :: 10000 <= n <= 99999 && id == NatToString(n)
    {
      var n;
      id, n := FreshId("", students.Keys, 10000, 99999);
      assert id == NatToString(n);
    }

    /** `add_student()`: an empty name, a name `validate_name` refuses, or a name some
        student already has (ignoring case) changes nothing; otherwise a student with
        no grades is added under a fresh id. */
    method AddStudent(name: string) returns (r: Result<string, StudentError>)
      requires |students| <= 89999
      modifies this
      ensures r.Err? <==> name == "" || !ValidateName(name) || NameTaken(old(students), name)
      ensures r.Err? ==> students == old(students) &&
                         r.error == if name == "" then EmptyName else if !ValidateName(name) then InvalidName else DuplicateName
      ensures r.Ok? ==> r.value !in old(students) && students == old(students)[r.value := Student(name, map[])]
    {
      if name == "" {
        return Err(EmptyName);
      }
      if !ValidateName(name) {
        return Err(InvalidName);
      }
      if NameTaken(students, name) {
        return Err(DuplicateName);
      }
      var id := GenerateId();
      students := students[id := Student(name, map[])];
      return Ok(id);
    }

    /** `add_grade()`: nothing changes for an empty or unknown id, an empty subject, an
        answer that is not a number or a number outside 0..100; otherwise that one
        subject of that one student is set or overwritten. */
    method AddGrade(id: string, subject: string, answer: string, parse: string -> Option<real>)
      returns (r: Outcome<LookupError>)
      modifies this
      ensures r == if id == "" then Fail(EmptyId)
                   else if id !in old(students) then Fail(UnknownId)
                   else if subject == "" then Fail(EmptySubject)
                   else if parse(answer).None? then Fail(NotANumber)
                   else if parse(answer).value < 0.0 || parse(answer).value > 100.0 then Fail(OutOfRange)
                   else Pass
      ensures r.Fail? ==> students == old(students)
      ensures r.Pass? ==>
        var s := old(students)[id];
        students == old(students)[id := s.(grades := s.grades[subject := parse(answer).value])]
    {
      if id == "" {
        return Fail(EmptyId);
      }
      if id !in students {
        return Fail(UnknownId);
      }
      if subject == "" {
        return Fail(EmptySubject);
      }
      var grade := parse(answer);
      if grade.None? {
        return Fail(NotANumber);
      }
      if grade.value < 0.0 || grade.value > 100.0 {
        return Fail(OutOfRange);
      }
      var s := students[id];
      students := students[id := s.(grades := s.grades[subject := grade.value])];
      return Pass;
    }

    /** `add_multiple_grade()` with the lines typed in `entries`: nothing for an empty
        or unknown id; otherwise each entry up to the first "done" that `EntryGrade`
        accepts sets its subject for that student, and every other entry is skipped. */
    method AddMultipleGrade(id: string, entries: seq<string>, parse: string -> Option<real>)
      returns (r: Outcome<LookupError>)
      modifies this
      ensures r == if id == "" then Fail(EmptyId) else if id !in old(students) then Fail(UnknownId) else Pass
      ensures r.Fail? ==> students == old(students)
      ensures r.Pass? ==>
        var s := old(students)[id];
        students == old(students)[id := s.(grades := ApplyEntries(s.grades, entries, parse))]
    {
      if id == "" {
        return Fail(EmptyId);
      }
      if id !in students {
        return Fail(UnknownId);
      }
      var grades := students[id].grades;
      var i := 0;
      while i < |entries| && !IsDone(entries[i])
        invariant 0 <= i <= |entries|
        invariant ApplyEntries(old(students)[id].grades, entries, parse) == ApplyEntries(grades, entries[i..], parse)
      {
        var e := EntryGrade(entries[i], parse);
        if e.Some? {
          grades := grades[e.value.0 := e.value.1];
        }
        assert entries[i..][0] == entries[i] && entries[i..][1..] == entries[i + 1..];
        i := i + 1;
      }
      students := students[id := students[id].(grades := grades)];
      return Pass;
    }
  }
}
