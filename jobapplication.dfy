/** The current job-application record (package `types` under `internal/`):
    a company, a supported role, a status and an ordered list of notes.
    Status updates and note edits change the record in place. */
module JobApplication {
  import opened Prelude

  /** Go's `ApplicationStatus byte`. */
  type ApplicationStatus = uint8

  /** Go's `JobRole string`. */
  type JobRole = string

  const Active: ApplicationStatus := 0
  const PendingResponse: ApplicationStatus := 1
  const Rejected: ApplicationStatus := 2
  const Offer: ApplicationStatus := 3
  const MaxStatus: ApplicationStatus := Offer

  const SoftwareEngineer: JobRole := "Software Engineer"

  const RoleError := "`role` is not supported by type JobRole"
  const StatusError := "`status` is not supported by type ApplicationStatus"
  const IndexOutOfRange := "index out of range"
  const IndexNegative := "index negative"

  /** `ApplicationStatus.String`: the display name of a status, or "err" for
      a byte that is no status. */
  function StatusName(s: ApplicationStatus): (name: string)
    ensures name == "err" <==> s > MaxStatus
  {
    if s == Active then "Active"
    else if s == PendingResponse then "Pending Response"
    else if s == Rejected then "Rejected"
    else if s == Offer then "Offer"
    else "err"
  }

  /** Two valid statuses never share a display name. */
  lemma StatusNameInjective(s: ApplicationStatus, t: ApplicationStatus)
    requires s <= MaxStatus && t <= MaxStatus
    requires StatusName(s) == StatusName(t)
    ensures s == t
  {
  }

  /** `GetSupportedJobRoles`. */
  function GetSupportedJobRoles(): (roles: seq<JobRole>)
    ensures |roles| == 1 && SoftwareEngineer in roles
  {
    [SoftwareEngineer]
  }

  /** The two guards of `NewJobApplication` and `UnmarshalJSON`, checked in
      the source's order: the role first, then the status. */
  function Validate(role: JobRole, status: ApplicationStatus): (r: Outcome)
    ensures r.Pass? <==> role in GetSupportedJobRoles() && status <= MaxStatus
    ensures role !in GetSupportedJobRoles() ==> r == Fail(RoleError)
    ensures role in GetSupportedJobRoles() && status > MaxStatus ==> r == Fail(StatusError)
  {
    if role !in GetSupportedJobRoles() then Fail(RoleError)
    else if status > MaxStatus then Fail(StatusError)
    else Pass
  }

  /** The value of a record: its four fields. */
  datatype Record = Record(company: string, role: JobRole, status: ApplicationStatus, notes: seq<string>)

  /** The fields `UnmarshalJSON` decodes into its auxiliary struct. */
  datatype JsonFields = JsonFields(company: string, role: JobRole, status: ApplicationStatus)

  /** One note as `String` prints it: in double quotes. */
  function Quote(note: string): string {
    "\"" + note + "\""
  }

  /** The notes joined by single spaces, each in double quotes. */
  function QuotedNotes(notes: seq<string>): string {
    if |notes| == 0 then ""
    else if |notes| == 1 then Quote(notes[0])
    else Quote(notes[0]) + " " + QuotedNotes(notes[1..])
  }

  /** The bracketed list of notes inside `String`'s rendering. */
  function NotesText(notes: seq<string>): string {
    "[" + QuotedNotes(notes) + "]"
  }

  /** The whole rendering `JobApplication.String` produces. */
  function Describe(r: Record): string {
    "&{company: " + r.company + ", role: " + r.role + ", status: " + StatusName(r.status)
      + ", notes: " + NotesText(r.notes) + "}"
  }

  /** Joining one more note after at least one adds a space and that note. */
  lemma {:induction false} QuotedNotesSnoc(notes: seq<string>, note: string)
    requires |notes| >= 1
    ensures QuotedNotes(notes + [note]) == QuotedNotes(notes) + " " + Quote(note)
  {
    if |notes| == 1 {
      assert (notes + [note])[1..] == [note];
    } else {
      assert (notes + [note])[1..] == notes[1..] + [note];
      QuotedNotesSnoc(notes[1..], note);
    }
  }

  /** The notes render as "[]" exactly when there are none. */
  lemma NotesTextEmpty(notes: seq<string>)
    ensures NotesText(notes) == "[]" <==> notes == []
  {
    if notes != [] {
      assert |QuotedNotes(notes)| >= 2;
      assert |NotesText(notes)| >= 4;
    }
  }

  /** After `AddNote(n)` the rendered list is the old one with `"n"` appended
      before the closing bracket (after a space unless the list was empty). */
  lemma NotesTextAddNote(notes: seq<string>, note: string)
    ensures NotesText(notes + [note]) ==
      "[" + QuotedNotes(notes) + (if notes == [] then "" else " ") + Quote(note) + "]"
  {
    if notes == [] {
      assert notes + [note] == [note];
    } else {
      QuotedNotesSnoc(notes, note);
    }
  }

  /** A job application, updated in place through its pointer. */
  class JobApplication {
    var company: string
    var role: JobRole
    var status: ApplicationStatus
    var notes: seq<string>

    /** The struct literal `&JobApplication{...}`. */
    constructor (company: string, role: JobRole, status: ApplicationStatus, notes: seq<string>)
      ensures View() == Record(company, role, status, notes)
    {
      this.company := company;
      this.role := role;
      this.status := status;
      this.notes := notes;
    }

    function View(): Record
      reads this
    {
      Record(company, role, status, notes)
    }

    /** `UnmarshalJSON`, after `json.Unmarshal` has produced `decoded` (or
        failed). Only company, role and status are ever assigned. */
    method UnmarshalJSON(decoded: Result<JsonFields>) returns (r: Outcome)
      modifies this
      ensures decoded.Err? ==> r == Fail(decoded.error)
      ensures decoded.Ok? ==> r == Validate(decoded.value.role, decoded.value.status)
      ensures r.Fail? ==> View() == old(View())
      ensures r.Pass? ==> View() == Record(decoded.value.company, decoded.value.role, decoded.value.status, old(notes))
    {
      if decoded.Err? {
        return Fail(decoded.error);
      }
      var aux := decoded.value;
      if aux.role !in GetSupportedJobRoles() {
        return Fail(RoleError);
      }
      if aux.status > MaxStatus {
        return Fail(StatusError);
      }
      company := aux.company;
      role := aux.role;
      status := aux.status;
      return Pass;
    }

    /** `UpdateStatus`: out-of-range statuses are refused without change;
        otherwise only the status changes. */
    method UpdateStatus(s: ApplicationStatus) returns (r: Outcome)
      modifies this
      ensures r.Pass? <==> s <= MaxStatus
      ensures r.Fail? ==> r.error == StatusError && View() == old(View())
      ensures r.Pass? ==> View() == old(View()).(status := s)
    {
      if s > MaxStatus {
        return Fail(StatusError);
      }
      status := s;
      return Pass;
    }

    /** `AddNote`: the note goes last; nothing else changes. */
    method AddNote(note: string)
      modifies this
      ensures View() == old(View()).(notes := old(notes) + [note])
      ensures NumNotes() == old(NumNotes()) + 1
    {
      notes := notes + [note];
    }

    /** `NumNotes`. */
    function NumNotes(): (n: int)
      reads this
      ensures n == |View().notes|
    {
      |notes|
    }

    /** `RemoveNote`: the index is checked against the length first, then
        against zero; a valid index removes exactly that note. */
    method RemoveNote(index: int) returns (r: Outcome)
      modifies this
      ensures index >= |old(notes)| ==> r == Fail(IndexOutOfRange)
      ensures index < 0 && index < |old(notes)| ==> r == Fail(IndexNegative)
      ensures r.Pass? <==> 0 <= index < |old(notes)|
      ensures r.Fail? ==> View() == old(View())
      ensures r.Pass? ==> View() == old(View()).(notes := RemoveAt(old(notes), index))
    {
      if index >= |notes| {
        return Fail(IndexOutOfRange);
      } else if index < 0 {
        return Fail(IndexNegative);
      }
      notes := notes[..index] + notes[index + 1..];
      return Pass;
    }

    /** `String`: builds the notes list with a loop, then the whole text. */
    method String() returns (s: string)
      ensures s == Describe(View())
    {
      var notesString := "[";
      if |notes| > 1 {
        notesString := notesString + "\"" + notes[0] + "\"";
        var i := 1;
        while i < |notes|
          invariant 1 <= i <= |notes|
          invariant notesString == "[" + QuotedNotes(notes[..i])
        {
          assert notes[..i + 1] == notes[..i] + [notes[i]];
          QuotedNotesSnoc(notes[..i], notes[i]);
          notesString := notesString + " \"" + notes[i] + "\"";
          i := i + 1;
        }
        assert notes[..i] == notes;
      } else if |notes| == 1 {
        notesString := notesString + "\"" + notes[0] + "\"";
      }
      notesString := notesString + "]";
      s := "&{company: " + company + ", role: " + role + ", status: " + StatusName(status)
        + ", notes: " + notesString + "}";
    }
  }

  /** `NewJobApplication`: validates role then status; on success a new
      record holds exactly the arguments. */
  method NewJobApplication(company: string, role: JobRole, status: ApplicationStatus, notes: seq<string>)
    returns (r: Result<JobApplication>)
    ensures r.Err? <==> Validate(role, status).Fail?
    ensures r.Err? ==> r.error == Validate(role, status).error
    ensures r.Ok? ==> fresh(r.value) && r.value.View() == Record(company, role, status, notes)
  {
    if role !in GetSupportedJobRoles() {
      return Err(RoleError);
    }
    if status > MaxStatus {
      return Err(StatusError);
    }
    var application := new JobApplication(company, role, status, notes);
    return Ok(application);
  }
}
