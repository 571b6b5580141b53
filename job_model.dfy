/** The Job document with its embedded applications (the Mongoose schema of
    Server/src/models/Job.js): the type and status enums, the defaults, the
    required fields and the Job collection. */
module JobModel {
  import opened Common

  type JobId = Id
  type UserId = Id

  /** The `type` enum. */
  datatype JobType = FullTime | PartTime | Contract | Internship

  function JobTypeName(t: JobType): string
  {
    match t
    case FullTime => "full-time"
    case PartTime => "part-time"
    case Contract => "contract"
    case Internship => "internship"
  }

  /** The enum validator of `type`: exactly the four names are accepted. */
  function ParseJobType(s: string): (r: Option<JobType>)
    ensures r.Some? <==> s in {"full-time", "part-time", "contract", "internship"}
    ensures r.Some? ==> JobTypeName(r.value) == s
  {
    if s == "full-time" then Some(FullTime)
    else if s == "part-time" then Some(PartTime)
    else if s == "contract" then Some(Contract)
    else if s == "internship" then Some(Internship)
    else None
  }

  lemma ParseJobTypeName(t: JobType)
    ensures ParseJobType(JobTypeName(t)) == Some(t)
  {
  }

  /** The `status` enum of an application. */
  datatype AppStatus = Pending | Reviewed | Rejected | Accepted

  function AppStatusName(s: AppStatus): string
  {
    match s
    case Pending => "pending"
    case Reviewed => "reviewed"
    case Rejected => "rejected"
    case Accepted => "accepted"
  }

  /** The validator of `status`, with `pending` for a missing value. */
  function StoredAppStatus(supplied: Option<string>): (r: Option<AppStatus>)
    ensures supplied.None? ==> r == Some(Pending)
    ensures supplied.Some? ==> (r.Some? <==> supplied.value in {"pending", "reviewed", "rejected", "accepted"})
    ensures supplied.Some? && r.Some? ==> AppStatusName(r.value) == supplied.value
  {
    match supplied
    case None => Some(Pending)
    case Some(s) =>
      if s == "pending" then Some(Pending)
      else if s == "reviewed" then Some(Reviewed)
      else if s == "rejected" then Some(Rejected)
      else if s == "accepted" then Some(Accepted)
      else None
  }

  /** The salary sub-document; numbers are integers here. */
  datatype Salary = Salary(min: Option<int>, max: Option<int>, currency: string)

  const DefaultCurrency := "USD"

  /** The salary stored for the fields a parsed salary object carries: a
      missing currency becomes `USD`. */
  function StoredSalary(min: Option<int>, max: Option<int>, currency: Option<string>): Salary
  {
    Salary(min, max, if currency.Some? then currency.value else DefaultCurrency)
  }

  datatype Application = Application(user: UserId, coverLetter: Option<string>, resume: Option<string>,
                                     status: AppStatus)

  datatype Job = Job(
    title: string,
    company: string,
    location: string,
    remote: bool,
    jobType: JobType,
    salary: Salary,
    description: string,
    requirements: seq<string>,
    skills: seq<string>,
    postedBy: UserId,
    applications: seq<Application>,
    isActive: bool,
    expiryDate: Option<string>)

  /** The required validators on the string fields and `postedBy` (the type
      is valid by construction of `JobType`). */
  predicate ValidJob(j: Job)
  {
    j.title != "" && j.company != "" && j.location != "" && j.description != "" && j.postedBy != ""
  }

  /** `u` has applied for the job. */
  predicate Applied(j: Job, u: UserId)
  {
    exists k :: 0 <= k < |j.applications| && j.applications[k].user == u
  }

  /** No user holds two applications for the same job. */
  predicate OnePerUser(apps: seq<Application>)
  {
    forall k, l :: 0 <= k < l < |apps| ==> apps[k].user != apps[l].user
  }

  /** The Job collection; every job keeps at most one application per user. */
  class Jobs {
    var jobs: map<JobId, Job>

    ghost predicate Valid()
      reads this
    {
      forall id :: id in jobs ==> ValidJob(jobs[id]) && OnePerUser(jobs[id].applications)
    }

    constructor ()
      ensures Valid() && jobs == map[]
    {
      jobs := map[];
    }
  }
}
