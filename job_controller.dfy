/** The job endpoints of Server/src/controllers/jobController.js: creation
    from form fields, the `remote` list filter, applying once per user, and
    the flattened list of a user's applications. */
module JobController {
  import opened Common
  import opened Text
  import opened JobModel

  /** A salary object as `JSON.parse` returns it. */
  datatype SalaryFields = SalaryFields(min: Option<int>, max: Option<int>, currency: Option<string>)

  /** The multipart form fields of POST /jobs, all strings. */
  datatype JobForm = JobForm(
    title: Option<string>,
    company: Option<string>,
    location: Option<string>,
    remote: Option<string>,
    jobType: Option<string>,
    salary: Option<string>,
    description: Option<string>,
    requirements: Option<string>,
    skills: Option<string>,
    expiryDate: Option<string>)

  /** The job `createJob` asks to store, given what `JSON.parse` made of the
      salary text (unused when there is none); None when the `type` field is
      absent or not one of the enum names. */
  function BuildJob(form: JobForm, me: UserId, parsedSalary: SalaryFields): (r: Option<Job>)
    ensures r.Some? <==> form.jobType.Some? && ParseJobType(form.jobType.value).Some?
    ensures r.Some? ==> ParseJobType(form.jobType.value) == Some(r.value.jobType) && r.value.postedBy == me
  {
    var t := if form.jobType.Some? then ParseJobType(form.jobType.value) else None;
    if t.None? then None
    else
      var salary := if Truthy(form.salary)
                    then StoredSalary(parsedSalary.min, parsedSalary.max, parsedSalary.currency)
                    else StoredSalary(None, None, None);
      Some(Job(
        if form.title.Some? then form.title.value else "",
        if form.company.Some? then form.company.value else "",
        if form.location.Some? then form.location.value else "",
        form.remote == Some("true"),
        t.value,
        salary,
        if form.description.Some? then form.description.value else "",
        CommaList(form.requirements),
        CommaList(form.skills),
        me,
        [],
        true,
        if Truthy(form.expiryDate) then form.expiryDate else None))
  }

  /** The derived fields of a new job: `remote` only for the exact text
      "true", requirements and skills as trimmed comma lists, no expiry date
      unless one was given, `USD` unless a currency was given, active, and no
      applications. */
  lemma BuildJobSpec(form: JobForm, me: UserId, parsedSalary: SalaryFields)
    requires BuildJob(form, me, parsedSalary).Some?
    ensures var j := BuildJob(form, me, parsedSalary).value;
      && (j.remote <==> form.remote == Some("true"))
      && j.requirements == CommaList(form.requirements)
      && j.skills == CommaList(form.skills)
      && (!Truthy(form.expiryDate) ==> j.expiryDate.None?)
      && (!Truthy(form.salary) ==> j.salary == Salary(None, None, "USD"))
      && (Truthy(form.salary) && parsedSalary.currency.None? ==> j.salary.currency == "USD")
      && j.isActive && j.applications == [] && j.postedBy == me
      && JobTypeName(j.jobType) == form.jobType.value
  {
  }

  /** A job built from a form passes validation exactly when the title,
      company, location and description fields were non-empty and the poster
      is known. */
  lemma BuildJobValid(form: JobForm, me: UserId, parsedSalary: SalaryFields)
    requires BuildJob(form, me, parsedSalary).Some?
    ensures ValidJob(BuildJob(form, me, parsedSalary).value) <==>
      Truthy(form.title) && Truthy(form.company) && Truthy(form.location) && Truthy(form.description) && me != ""
  {
  }

  /** POST /jobs: a salary text that does not parse, an invalid type or a
      missing required field is a 500 and stores nothing; otherwise the built
      job is stored under the fresh id. */
  method CreateJob(db: Jobs, me: UserId, form: JobForm, parsedSalary: Option<SalaryFields>, newId: JobId)
    returns (r: Reply<JobId>)
    requires db.Valid() && newId !in db.jobs
    modifies db
    ensures db.Valid()
    ensures Truthy(form.salary) && parsedSalary.None? ==>
      r.Fail? && r.status == 500 && db.jobs == old(db.jobs)
    ensures !(Truthy(form.salary) && parsedSalary.None?) ==>
      var j := BuildJob(form, me, if parsedSalary.Some? then parsedSalary.value else SalaryFields(None, None, None));
      if j.Some? && ValidJob(j.value) then r == Ok(201, newId) && db.jobs == old(db.jobs)[newId := j.value]
      else r.Fail? && r.status == 500 && db.jobs == old(db.jobs)
  {
    if Truthy(form.salary) && parsedSalary.None? {
      return Fail(500, "Unexpected token in JSON");
    }
    var j := BuildJob(form, me, if parsedSalary.Some? then parsedSalary.value else SalaryFields(None, None, None));
    if j.None? || !ValidJob(j.value) {
      return Fail(500, "Job validation failed");
    }
    db.jobs := db.jobs[newId := j.value];
    r := Ok(201, newId);
  }

  /** The `remote` condition of GET /jobs: none when the parameter is absent,
      otherwise whether it is the text "true". */
  function RemoteFilter(remote: Option<string>): (f: Option<bool>)
    ensures f.None? <==> remote.None?
    ensures f == Some(true) <==> remote == Some("true")
  {
    if remote.None? then None else Some(remote.value == "true")
  }

  predicate PassesRemote(j: Job, f: Option<bool>)
  {
    f.None? || j.remote == f.value
  }

  /** Without the parameter no job is excluded; with it exactly the jobs of
      the requested kind are kept, and any text but "true" asks for on-site
      jobs. */
  lemma RemoteFilterSpec(j: Job, remote: Option<string>)
    ensures remote.None? ==> PassesRemote(j, RemoteFilter(remote))
    ensures remote == Some("true") ==> (PassesRemote(j, RemoteFilter(remote)) <==> j.remote)
    ensures remote.Some? && remote.value != "true" ==> (PassesRemote(j, RemoteFilter(remote)) <==> !j.remote)
  {
  }

  /** POST /jobs/:id/apply: 404 for an unknown job and 400 for a second
      application by the same user, changing nothing; otherwise one pending
      application is appended. */
  method ApplyForJob(db: Jobs, id: JobId, me: UserId, coverLetter: Option<string>, resume: Option<string>)
    returns (r: Reply<string>)
    requires db.Valid()
    modifies db
    ensures db.Valid()
    ensures id !in old(db.jobs) ==> r == Fail(404, "Job not found") && db.jobs == old(db.jobs)
    ensures id in old(db.jobs) && Applied(old(db.jobs[id]), me) ==>
      r == Fail(400, "You have already applied for this job") && db.jobs == old(db.jobs)
    ensures id in old(db.jobs) && !Applied(old(db.jobs[id]), me) ==>
      && r == Ok(201, "Application submitted successfully")
      && db.jobs == old(db.jobs)[id := old(db.jobs[id]).(applications :=
           old(db.jobs[id]).applications + [Application(me, coverLetter, resume, Pending)])]
  {
    if id !in db.jobs {
      return Fail(404, "Job not found");
    }
    var job := db.jobs[id];
    if Applied(job, me) {
      return Fail(400, "You have already applied for this job");
    }
    var apps := job.applications + [Application(me, coverLetter, resume, Pending)];
    assert OnePerUser(apps);
    db.jobs := db.jobs[id := job.(applications := apps)];
    r := Ok(201, "Application submitted successfully");
  }

  /** The job fields shown beside each of a user's applications. */
  datatype JobSummary = JobSummary(id: JobId, title: string, company: string, location: string, jobType: JobType)

  datatype AppView = AppView(job: JobSummary, application: Application)

  function Summary(id: JobId, j: Job): JobSummary
  {
    JobSummary(id, j.title, j.company, j.location, j.jobType)
  }

  /** A user's applications to one job, in order, each beside the job. */
  function ViewsFor(id: JobId, j: Job, apps: seq<Application>, me: UserId): (r: seq<AppView>)
    ensures forall v :: v in r ==> v.job == Summary(id, j) && v.application in apps && v.application.user == me
    ensures forall a :: a in apps && a.user == me ==> AppView(Summary(id, j), a) in r
  {
    if apps == [] then []
    else
      var rest := ViewsFor(id, j, apps[1..], me);
      assert forall a :: a in apps ==> a == apps[0] || a in apps[1..];
      if apps[0].user == me then [AppView(Summary(id, j), apps[0])] + rest else rest
  }

  /** The applications the views carry, view by view. */
  function AppsOf(vs: seq<AppView>): (r: seq<Application>)
    ensures |r| == |vs| && forall k :: 0 <= k < |vs| ==> r[k] == vs[k].application
  {
    seq(|vs|, k requires 0 <= k < |vs| => vs[k].application)
  }

  /** The views list the user's applications in the order the job stores
      them. */
  lemma {:induction false} ViewsForOrder(id: JobId, j: Job, apps: seq<Application>, me: UserId)
    ensures SubsequenceOf(AppsOf(ViewsFor(id, j, apps, me)), apps)
    decreases |apps|
  {
    if apps != [] {
      var rest := ViewsFor(id, j, apps[1..], me);
      ViewsForOrder(id, j, apps[1..], me);
      var a := AppsOf(ViewsFor(id, j, apps, me));
      if apps[0].user == me {
        assert a[1..] == AppsOf(rest);
      } else if rest != [] {
        assert rest[0] in rest;
        assert a[0].user == me;
      }
    }
  }

  /** GET /jobs/my-applications over the jobs in the order the query returns
      them: `flatMap` of each job's applications by the user. */
  function MyApplications(jobs: seq<(JobId, Job)>, me: UserId): seq<AppView>
  {
    if jobs == [] then []
    else ViewsFor(jobs[0].0, jobs[0].1, jobs[0].1.applications, me) + MyApplications(jobs[1..], me)
  }

  /** The `k`-th queried job produced `v`. */
  predicate FromJob(jobs: seq<(JobId, Job)>, k: int, v: AppView)
  {
    0 <= k < |jobs| && v.job == Summary(jobs[k].0, jobs[k].1) && v.application in jobs[k].1.applications
  }

  /** Exactly the user's applications come back: each entry is an application
      by the user to one of the jobs, beside that job, and every application
      by the user to one of the jobs is listed. */
  lemma {:induction false} MyApplicationsSpec(jobs: seq<(JobId, Job)>, me: UserId)
    ensures forall v :: v in MyApplications(jobs, me) ==>
      v.application.user == me && exists k :: FromJob(jobs, k, v)
    ensures forall k, a :: 0 <= k < |jobs| && a in jobs[k].1.applications && a.user == me ==>
      AppView(Summary(jobs[k].0, jobs[k].1), a) in MyApplications(jobs, me)
  {
    if jobs != [] {
      MyApplicationsSpec(jobs[1..], me);
      var here := ViewsFor(jobs[0].0, jobs[0].1, jobs[0].1.applications, me);
      var rest := MyApplications(jobs[1..], me);
      forall v: AppView | v in here + rest ensures v.application.user == me && exists k :: FromJob(jobs, k, v) {
        if v in here {
          assert FromJob(jobs, 0, v);
        } else {
          var k :| FromJob(jobs[1..], k, v);
          assert FromJob(jobs, k + 1, v);
        }
      }
      forall k, a | 0 <= k < |jobs| && a in jobs[k].1.applications && a.user == me
        ensures AppView(Summary(jobs[k].0, jobs[k].1), a) in here + rest
      {
        if k > 0 {
          assert jobs[k] == jobs[1..][k - 1];
        }
      }
    }
  }

  /** Results follow the job order: listing two batches of jobs lists the
      first batch's applications before the second's. */
  lemma {:induction false} MyApplicationsAppend(a: seq<(JobId, Job)>, b: seq<(JobId, Job)>, me: UserId)
    ensures MyApplications(a + b, me) == MyApplications(a, me) + MyApplications(b, me)
  {
    if a == [] {
      assert a + b == b;
    } else {
      assert (a + b)[0] == a[0];
      assert (a + b)[1..] == a[1..] + b;
      MyApplicationsAppend(a[1..], b, me);
    }
  }

  /** Number of the queried jobs the user has applied for. */
  function AppliedJobs(jobs: seq<(JobId, Job)>, me: UserId): nat
  {
    if jobs == [] then 0 else (if Applied(jobs[0].1, me) then 1 else 0) + AppliedJobs(jobs[1..], me)
  }

  lemma {:induction false} ViewsForOne(id: JobId, j: Job, apps: seq<Application>, me: UserId)
    requires OnePerUser(apps)
    ensures |ViewsFor(id, j, apps, me)| == if exists k :: 0 <= k < |apps| && apps[k].user == me then 1 else 0
  {
    if apps != [] {
      var t := apps[1..];
      assert OnePerUser(t) by {
        forall k, l | 0 <= k < l < |t| ensures t[k].user != t[l].user {
          assert t[k] == apps[k + 1] && t[l] == apps[l + 1];
        }
      }
      ViewsForOne(id, j, t, me);
      if apps[0].user == me {
        forall k | 0 <= k < |t| ensures t[k].user != me {
          assert t[k] == apps[k + 1];
        }
      } else {
        if exists k :: 0 <= k < |apps| && apps[k].user == me {
          var k :| 0 <= k < |apps| && apps[k].user == me;
          assert t[k - 1] == apps[k];
        }
        if exists k :: 0 <= k < |t| && t[k].user == me {
          var k :| 0 <= k < |t| && t[k].user == me;
          assert apps[k + 1] == t[k];
        }
      }
    }
  }

  /** Since no user applies twice to a job, the user gets exactly one entry
      per job applied for. */
  lemma {:induction false} MyApplicationsCount(jobs: seq<(JobId, Job)>, me: UserId)
    requires forall k :: 0 <= k < |jobs| ==> OnePerUser(jobs[k].1.applications)
    ensures |MyApplications(jobs, me)| == AppliedJobs(jobs, me)
  {
    if jobs != [] {
      ViewsForOne(jobs[0].0, jobs[0].1, jobs[0].1.applications, me);
      assert forall k :: 0 <= k < |jobs[1..]| ==> jobs[1..][k] == jobs[k + 1];
      MyApplicationsCount(jobs[1..], me);
    }
  }
}
