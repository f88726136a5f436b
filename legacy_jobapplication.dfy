/** The older job-application record (`types/jobApplication.go`): the same
    record as the current one, but built from three arguments with no notes,
    and with the role list and the largest status held in package variables. */
module LegacyJobApplication {
  import opened Prelude
  import Current = JobApplication

  type ApplicationStatus = uint8
  type JobRole = string

  const Active: ApplicationStatus := 0
  const PendingResponse: ApplicationStatus := 1
  const Rejected: ApplicationStatus := 2
  const Offer: ApplicationStatus := 3

  /** The package variable `maxStatus`; nothing in the package reassigns it. */
  const maxStatus: ApplicationStatus := Offer

  const SoftwareEngineer: JobRole := "Software Engineer"

  /** The package variable `roles`. */
  const roles: seq<JobRole> := [SoftwareEngineer]

  const RoleError := "`role` is not supported by type JobRole"
  const StatusError := "`status` is not supported by type ApplicationStatus"
  const IndexOutOfRange := "index out of range"
  const IndexNegative := "index negative"

  /** `ApplicationStatus.String` of this version. */
  function StatusString(s: ApplicationStatus): (name: string)
    ensures name == "err" <==> s > maxStatus
  {
    match s
    case 0 => "Active"
    case 1 => "Pending Response"
    case 2 => "Rejected"
    case 3 => "Offer"
    case _ => "err"
  }

  /** This version names every status byte exactly as the current one does. */
  lemma StatusStringAgrees(s: ApplicationStatus)
    ensures StatusString(s) == Current.StatusName(s)
  {
  }

  /** The guards of `NewJobApplication`: role first, then status. */
  function Validate(role: JobRole, status: ApplicationStatus): (r: Outcome)
    ensures r.Pass? <==> role in roles && status <= maxStatus
    ensures role !in roles ==> r == Fail(RoleError)
    ensures role in roles && status > maxStatus ==> r == Fail(StatusError)
  {
    if role !in roles then Fail(RoleError)
    else if status > maxStatus then Fail(StatusError)
    else Pass
  }

  /** This version accepts and refuses exactly what the current one does,
      with the same messages. */
  lemma ValidateAgrees(role: JobRole, status: ApplicationStatus)
    ensures Validate(role, status) == Current.Validate(role, status)
  {
  }

  class JobApplication {
    var company: string
    var role: JobRole
    var status: ApplicationStatus
    var notes: seq<string>

    /** The struct literal with an empty `notes` slice. */
    constructor (company: string, role: JobRole, status: ApplicationStatus)
      ensures View() == Current.Record(company, role, status, [])
    {
      this.company := company;
      this.role := role;
      this.status := status;
      this.notes := [];
    }

    function View(): Current.Record
      reads this
    {
      Current.Record(company, role, status, notes)
    }

    /** `UpdateStatus`. */
    method UpdateStatus(s: ApplicationStatus) returns (r: Outcome)
      modifies this
      ensures r.Pass? <==> s <= maxStatus
      ensures r.Fail? ==> r.error == StatusError && View() == old(View())
      ensures r.Pass? ==> View() == old(View()).(status := s)
    {
      if s > maxStatus {
        return Fail(StatusError);
      }
      status := s;
      return Pass;
    }

    /** `AddNote`. */
    method AddNote(note: string)
      modifies this
      ensures View() == old(View()).(notes := old(notes) + [note])
      ensures NumNotes() == old(NumNotes()) + 1
    {
      notes := notes + [note];
    }

    /** `NumNotes`. */
    function NumNotes(): (n: int)
      reads this
      ensures n == |View().notes|
    {
      |notes|
    }

    /** `RemoveNote`: length check first, then the sign check. */
    method RemoveNote(index: int) returns (r: Outcome)
      modifies this
      ensures index >= |old(notes)| ==> r == Fail(IndexOutOfRange)
      ensures index < 0 && index < |old(notes)| ==> r == Fail(IndexNegative)
      ensures r.Pass? <==> 0 <= index < |old(notes)|
      ensures r.Fail? ==> View() == old(View())
      ensures r.Pass? ==> View() == old(View()).(notes := RemoveAt(old(notes), index))
    {
      if index >= |notes| {
        return Fail(IndexOutOfRange);
      } else if index < 0 {
        return Fail(IndexNegative);
      }
      notes := notes[..index] + notes[index + 1..];
      return Pass;
    }

    /** `String`: the same rendering as the current record's. */
    method String() returns (s: string)
      ensures s == Current.Describe(View())
    {
      var notesString := "[";
      if |notes| > 1 {
        notesString := notesString + "\"" + notes[0] + "\"";
        var i := 1;
        while i < |notes|
          invariant 1 <= i <= |notes|
          invariant notesString == "[" + Current.QuotedNotes(notes[..i])
        {
          assert notes[..i + 1] == notes[..i] + [notes[i]];
          Current.QuotedNotesSnoc(notes[..i], notes[i]);
          notesString := notesString + " \"" + notes[i] + "\"";
          i := i + 1;
        }
        assert notes[..i] == notes;
      } else if |notes| == 1 {
        notesString := notesString + "\"" + notes[0] + "\"";
      }
      notesString := notesString + "]";
      StatusStringAgrees(status);
      s := "&{company: " + company + ", role: " + role + ", status: " + StatusString(status)
        + ", notes: " + notesString + "}";
    }
  }

  /** `NewJobApplication` (three arguments): a valid role and status give a
      new record with those fields and no notes. */
  method NewJobApplication(company: string, role: JobRole, status: ApplicationStatus)
    returns (r: Result<JobApplication>)
    ensures r.Err? <==> Validate(role, status).Fail?
    ensures r.Err? ==> r.error == Validate(role, status).error
    ensures r.Ok? ==> fresh(r.value) && r.value.View() == Current.Record(company, role, status, [])
  {
    if role !in roles {
      return Err(RoleError);
    }
    if status > maxStatus {
      return Err(StatusError);
    }
    var application := new JobApplication(company, role, status);
    return Ok(application);
  }

  /** The scenario of the package's note test: two notes added to a fresh
      record are counted and kept in order. The test builds the record from
      valid arguments; on a construction error it would go on with a nil
      record, so only valid arguments are in scope. */
  method TwoNotes(company: string, role: JobRole, status: ApplicationStatus, first: string, second: string)
    returns (count: int, kept: seq<string>)
    requires Validate(role, status).Pass?
    ensures count == 2 && kept == [first, second]
  {
    var r := NewJobApplication(company, role, status);
    assert r.Ok?;
    var application := r.value;
    application.AddNote(first);
    application.AddNote(second);
    count := application.NumNotes();
    kept := application.notes;
  }
}
