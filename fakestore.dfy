/** The in-memory store (`FakeStore`): a slice of pointers to job
    applications, searched by company name. Creation rejects a company
    already present and appends; deletion splices the first match out;
    status and note updates go to the first match, in place. The user
    methods are stubs. */
module FakeStore {
  import opened Prelude
  import opened JobApplication
  import Auth

  const NotFound := "application not found"
  const AlreadyExists := "application already exists"

  /** The company of each application, in table order. */
  function CompaniesOf(apps: seq<JobApplication>): (cs: seq<string>)
    reads apps
    ensures |cs| == |apps|
    ensures forall i :: 0 <= i < |apps| ==> cs[i] == apps[i].company
  {
    if |apps| == 0 then [] else [apps[0].company] + CompaniesOf(apps[1..])
  }

  class FakeStore {
    var applications: seq<JobApplication>

    /** `NewFakeStore`. */
    constructor (applications: seq<JobApplication>)
      ensures this.applications == applications
    {
      this.applications := applications;
    }

    function Companies(): seq<string>
      reads this, applications
    {
      CompaniesOf(applications)
    }

    /** Where the first application of `companyID` sits, if any. */
    function FirstMatch(companyID: string): Option<nat>
      reads this, applications
    {
      FirstIndex(Companies(), companyID)
    }

    /** No company occurs twice in the table. */
    predicate DistinctCompanies()
      reads this, applications
    {
      Distinct(Companies())
    }

    /** Every application other than the one at `k` (the same object, when
        it sits in the table twice, included) is as it was. */
    twostate predicate Untouched(apps: seq<JobApplication>, k: int)
      reads this, apps
    {
      && applications == apps
      && forall j :: 0 <= j < |apps| && (k < 0 || k >= |apps| || apps[j] != apps[k]) ==>
           apps[j].View() == old(apps[j].View())
    }

    /** The `for range` search every operation starts with: the index of the
        first application whose company is `companyID`. */
    method Find(companyID: string) returns (k: Option<nat>)
      ensures k == FirstMatch(companyID)
    {
      var i := 0;
      while i < |applications|
        invariant 0 <= i <= |applications|
        invariant forall j :: 0 <= j < i ==> applications[j].company != companyID
      {
        if applications[i].company == companyID {
          return Some(i);
        }
        i := i + 1;
      }
      return None;
    }

    /** `ListApplications`. */
    method ListApplications() returns (r: Result<seq<JobApplication>>)
      ensures r == Ok(applications)
    {
      return Ok(applications);
    }

    /** `GetApplication`: the first application of the company. */
    method GetApplication(companyID: string) returns (r: Result<JobApplication>)
      ensures r.Ok? <==> companyID in Companies()
      ensures r.Err? ==> r.error == NotFound
      ensures r.Ok? ==> FirstMatch(companyID).Some? && r.value == applications[FirstMatch(companyID).value]
      ensures r.Ok? ==> r.value.company == companyID
    {
      var k := Find(companyID);
      if k.None? {
        return Err(NotFound);
      }
      return Ok(applications[k.value]);
    }

    /** `CreateApplication`: a company already present is refused; otherwise
        the application is appended. Distinct companies stay distinct. */
    method CreateApplication(application: JobApplication) returns (r: Outcome)
      modifies this
      ensures r.Fail? <==> application.company in old(Companies())
      ensures r.Fail? ==> r.error == AlreadyExists && applications == old(applications)
      ensures r.Pass? ==> applications == old(applications) + [application]
      ensures Companies() == if r.Pass? then old(Companies()) + [application.company] else old(Companies())
      ensures old(DistinctCompanies()) ==> DistinctCompanies()
    {
      var k := Find(application.company);
      if k.Some? {
        return Fail(AlreadyExists);
      }
      ghost var before := Companies();
      applications := applications + [application];
      assert Companies() == before + [application.company];
      if Distinct(before) {
        DistinctAppend(before, application.company);
      }
      return Pass;
    }

    /** `DeleteApplication`: the first application of the company is spliced
        out and the rest keep their order. */
    method DeleteApplication(companyID: string) returns (r: Outcome)
      modifies this
      ensures r.Pass? <==> companyID in old(Companies())
      ensures r.Fail? ==> r.error == NotFound && applications == old(applications)
      ensures r.Pass? ==> applications == RemoveAt(old(applications), old(FirstMatch(companyID)).value)
      ensures old(DistinctCompanies()) ==> DistinctCompanies() && companyID !in Companies()
    {
      var k := Find(companyID);
      if k.None? {
        return Fail(NotFound);
      }
      ghost var before := Companies();
      var i := k.value;
      applications := applications[..i] + applications[i + 1..];
      assert Companies() == RemoveAt(before, i);
      if Distinct(before) {
        DistinctRemoveAt(before, i);
      }
      return Pass;
    }

    /** `UpdateApplicationStatus`: delegated to `UpdateStatus` of the first
        match, whose error is passed on; no other application changes. */
    method UpdateApplicationStatus(companyID: string, status: ApplicationStatus) returns (r: Outcome)
      modifies applications
      ensures old(FirstMatch(companyID)).None? ==> r == Fail(NotFound) && Untouched(old(applications), -1)
      ensures old(FirstMatch(companyID)).Some? ==>
        var k := old(FirstMatch(companyID)).value;
        && (r.Pass? <==> status <= MaxStatus)
        && (r.Fail? ==> r.error == StatusError)
        && applications[k].View() == (if r.Pass? then old(applications[k].View()).(status := status) else old(applications[k].View()))
        && Untouched(old(applications), k)
    {
      var k := Find(companyID);
      if k.None? {
        return Fail(NotFound);
      }
      r := applications[k.value].UpdateStatus(status);
    }

    /** `ListApplicationNotes`: the notes of the first match. */
    method ListApplicationNotes(companyID: string) returns (r: Result<seq<string>>)
      ensures r.Ok? <==> companyID in Companies()
      ensures r.Err? ==> r.error == NotFound
      ensures r.Ok? ==> FirstMatch(companyID).Some? && r.value == applications[FirstMatch(companyID).value].notes
    {
      var k := Find(companyID);
      if k.None? {
        return Err(NotFound);
      }
      return Ok(applications[k.value].notes);
    }

    /** `AddApplicationNote`: the note is appended to the first match only. */
    method AddApplicationNote(companyID: string, note: string) returns (r: Outcome)
      modifies applications
      ensures r.Pass? <==> old(FirstMatch(companyID)).Some?
      ensures r.Fail? ==> r.error == NotFound && Untouched(old(applications), -1)
      ensures r.Pass? ==>
        var k := old(FirstMatch(companyID)).value;
        && applications[k].View() == old(applications[k].View()).(notes := old(applications[k].notes) + [note])
        && Untouched(old(applications), k)
    {
      var k := Find(companyID);
      if k.None? {
        return Fail(NotFound);
      }
      applications[k.value].AddNote(note);
      return Pass;
    }

    /** `RemoveApplicationNote`: an unknown company, then `RemoveNote`'s own
        index checks, refuse; otherwise one note leaves the first match. */
    method RemoveApplicationNote(companyID: string, index: int) returns (r: Outcome)
      modifies applications
      ensures old(FirstMatch(companyID)).None? ==> r == Fail(NotFound) && Untouched(old(applications), -1)
      ensures old(FirstMatch(companyID)).Some? ==>
        var k := old(FirstMatch(companyID)).value;
        var n := |old(applications[k].notes)|;
        && (index >= n ==> r == Fail(IndexOutOfRange))
        && (index < 0 && index < n ==> r == Fail(IndexNegative))
        && (r.Pass? <==> 0 <= index < n)
        && applications[k].View() ==
           (if r.Pass? then old(applications[k].View()).(notes := RemoveAt(old(applications[k].notes), index))
            else old(applications[k].View()))
        && Untouched(old(applications), k)
    {
      var k := Find(companyID);
      if k.None? {
        return Fail(NotFound);
      }
      r := applications[k.value].RemoveNote(index);
    }

    /** `CreateUser`: user storage is not implemented; always succeeds. */
    method CreateUser(email: string, username: string, argon2auth: Auth.Argon2Auth?, hashedPassword: seq<Byte>)
      returns (r: Outcome)
      ensures r == Pass
    {
      return Pass;
    }

    /** `GetUserHashedPassword`: a nil slice and no error. */
    method GetUserHashedPassword(username: string) returns (r: Result<seq<Byte>>)
      ensures r == Ok([])
    {
      return Ok([]);
    }

    /** `GetUserArgon2Auth`: a nil pointer and no error. */
    method GetUserArgon2Auth(username: string) returns (r: Result<Auth.Argon2Auth?>)
      ensures r == Ok(null)
    {
      return Ok(null);
    }
  }
}
