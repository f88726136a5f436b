/** The earliest job-application record (`types/JobApplication.go`): explicit
    status constants, a three-argument constructor, notes that can only be
    added, and longer error messages. */
module EarlyJobApplication {
  import opened Prelude
  import Current = JobApplication

  type ApplicationStatus = uint8
  type JobRole = string

  const Active: ApplicationStatus := 0
  const PendingResponse: ApplicationStatus := 1
  const Rejected: ApplicationStatus := 2
  const Offer: ApplicationStatus := 3

  /** The package variable `maxStatus`; nothing reassigns it. */
  const maxStatus: ApplicationStatus := Offer

  const SoftwareEngineer: JobRole := "Software Engineer"
  const roles: seq<JobRole> := [SoftwareEngineer]

  const RoleError := "role is not supported by type JobRole"
  const StatusError := "status is not supported by type ApplicationStatus (are you using the given constants?)"

  /** The valid statuses of this version, in order, are the constants above. */
  function ValidStatuses(): (s: seq<ApplicationStatus>)
    ensures forall x: ApplicationStatus :: x in s <==> x <= maxStatus
    ensures forall i, j :: 0 <= i < j < |s| ==> s[i] < s[j]
  {
    [Active, PendingResponse, Rejected, Offer]
  }

  /** The guards of `NewJobApplication`: role first, then status. */
  function Validate(role: JobRole, status: ApplicationStatus): (r: Outcome)
    ensures r.Pass? <==> role in roles && status <= maxStatus
    ensures role !in roles ==> r == Fail(RoleError)
    ensures role in roles && status > maxStatus ==> r == Fail(StatusError)
  {
    if role !in roles then Fail(RoleError)
    else if status > maxStatus then Fail(StatusError)
    else Pass
  }

  /** This version accepts exactly what the current one accepts; only the
      wording of its errors differs. */
  lemma ValidateAcceptsAsCurrent(role: JobRole, status: ApplicationStatus)
    ensures Validate(role, status).Pass? <==> Current.Validate(role, status).Pass?
  {
  }

  class JobApplication {
    var company: string
    var role: JobRole
    var status: ApplicationStatus
    var notes: seq<string>

    /** The struct literal with an empty `notes` slice. */
    constructor (company: string, role: JobRole, status: ApplicationStatus)
      ensures View() == Current.Record(company, role, status, [])
    {
      this.company := company;
      this.role := role;
      this.status := status;
      this.notes := [];
    }

    function View(): Current.Record
      reads this
    {
      Current.Record(company, role, status, notes)
    }

    /** `AddNote`: the note goes last. */
    method AddNote(note: string)
      modifies this
      ensures View() == old(View()).(notes := old(notes) + [note])
      ensures NumNotes() == old(NumNotes()) + 1
    {
      notes := notes + [note];
    }

    /** `UpdateStatus`: refuses a status above `maxStatus`, keeping the old one. */
    method UpdateStatus(s: ApplicationStatus) returns (r: Outcome)
      modifies this
      ensures r.Pass? <==> s <= maxStatus
      ensures r.Fail? ==> r.error == StatusError && View() == old(View())
      ensures r.Pass? ==> View() == old(View()).(status := s)
    {
      if s > maxStatus {
        return Fail(StatusError);
      }
      status := s;
      return Pass;
    }

    /** `NumNotes`. */
    function NumNotes(): (n: int)
      reads this
      ensures n == |View().notes|
    {
      |notes|
    }
  }

  /** `NewJobApplication`: a valid role and status give a new record with
      those fields and no notes. */
  method NewJobApplication(company: string, role: JobRole, status: ApplicationStatus)
    returns (r: Result<JobApplication>)
    ensures r.Err? <==> Validate(role, status).Fail?
    ensures r.Err? ==> r.error == Validate(role, status).error
    ensures r.Ok? ==> fresh(r.value) && r.value.View() == Current.Record(company, role, status, [])
  {
    if role !in roles {
      return Err(RoleError);
    }
    if status > maxStatus {
      return Err(StatusError);
    }
    var application := new JobApplication(company, role, status);
    return Ok(application);
  }
}
