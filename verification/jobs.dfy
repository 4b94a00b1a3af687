/** The job catalogue: the public search with its filters, one job by id, the
    enterprise's own jobs, and creating, editing, closing and deleting jobs. */
module Jobs {
  import opened Wrappers
  import opened Text
  import opened Matching
  import opened Model
  import Ordering
  import Applications

  const EnterpriseProfileNotFound := ApiError(404, "Enterprise profile not found")
  const EnterpriseNotFound := ApiError(404, "Enterprise not found")

  // ---------------------------------------------------------------------
  // Search
  // ---------------------------------------------------------------------

  /** The type filter `getActiveJobs` derives from its `type` parameter: none
      for null, "" or "all"; otherwise the upper-cased constant, and none
      either when that names no type. */
  function ResolveType(t: Option<string>): (r: Option<JobType>)
    ensures r.Some? ==> t.Some? && ToUpper(t.value) == JobTypeName(r.value)
    ensures t.Some? && t.value != "" && t.value != "all" ==>
      forall x :: ToUpper(t.value) == JobTypeName(x) ==> r == Some(x)
  {
    if t == None || t == Some("") || t == Some("all") then None
    else ParseJobType(ToUpper(t.value))
  }

  /** A type parameter is never rejected: "all" and unknown names alike mean
      "any type", and every spelling of a type name selects it. */
  lemma ResolveTypeCases(t: string, x: JobType)
    ensures ResolveType(Some("all")) == None && ResolveType(Some("")) == None && ResolveType(None) == None
    ensures ToUpper(t) == JobTypeName(x) && t != "all" ==> ResolveType(Some(t)) == Some(x)
    ensures (forall y :: ToUpper(t) != JobTypeName(y)) ==> ResolveType(Some(t)) == None
  {
  }

  /** The three optional filters of `findActiveJobs`. */
  datatype JobFilter = JobFilter(jobType: Option<JobType>, location: Option<string>, search: Option<string>)

  /** `LOWER(text) LIKE LOWER('%' + term + '%')`, wildcards in `term` read
      literally. */
  predicate LikeSubstring(text: string, term: string) {
    Contains(ToLower(text), ToLower(term))
  }

  /** The WHERE clause of `findActiveJobs` for one job. */
  predicate Matches(job: JobOffer, f: JobFilter) {
    && job.status == Active
    && (f.jobType.Some? ==> job.jobType == f.jobType.value)
    && (f.location.Some? && f.location.value != "" ==> LikeSubstring(job.location, f.location.value))
    && (f.search.Some? && f.search.value != "" ==>
          LikeSubstring(job.title, f.search.value) || LikeSubstring(job.description, f.search.value))
  }

  /** An empty filter keeps every active job; an empty location or search
      term filters nothing. */
  lemma EmptyFilterKeepsActive(job: JobOffer, t: Option<JobType>, loc: Option<string>, search: Option<string>)
    ensures Matches(job, JobFilter(None, None, None)) <==> job.status == Active
    ensures Matches(job, JobFilter(t, Some(""), Some(""))) == Matches(job, JobFilter(t, None, None))
  {
  }

  /** The jobs `findActiveJobs` selects. */
  function ActiveRows(db: Db, f: JobFilter): set<Id> {
    set j | j in db.jobs && JobHasEnterprise(db, j) && Matches(db.jobs[j], f)
  }

  function CreatedAt(db: Db): Id -> int {
    j => if j in db.jobs then db.jobs[j].createdAt else 0
  }

  /** `findActiveJobs(type, location, search)`: the matching jobs, each once,
      newest first. */
  method FindActiveJobs(db: Db, f: JobFilter) returns (r: seq<Id>)
    ensures forall j :: j in r <==> j in ActiveRows(db, f)
    ensures |r| == |ActiveRows(db, f)|
    ensures Ordering.Distinct(r) && Ordering.Descending(r, CreatedAt(db))
    ensures forall i :: 0 <= i < |r| ==> r[i] in ActiveRows(db, f) && r[i] in db.jobs
    ensures forall j :: j in r ==> db.jobs[j].status == Active
  {
    r := Ordering.SortDescending(ActiveRows(db, f), CreatedAt(db));
    forall i | 0 <= i < |r| ensures r[i] in ActiveRows(db, f) && r[i] in db.jobs {
      assert r[i] in r;
    }
  }

  /** The job ids a candidate, by profile id, has applied to
      (`findAppliedJobIdsByCandidateId`). */
  function AppliedJobIds(db: Db, candidateId: Id): set<Id> {
    set a | a in db.applications && CandidateOf(db, db.applications[a].candidate).Some?
      && CandidateOf(db, db.applications[a].candidate).value.id == candidateId :: db.applications[a].job
  }

  /** One entry of `getActiveJobs`. */
  datatype JobListing = JobListing(id: Id, job: JobOffer, hasApplied: bool)

  /** One listing per id, in order. */
  method Listings(db: Db, ids: seq<Id>, applied: set<Id>) returns (r: seq<JobListing>)
    requires forall i :: 0 <= i < |ids| ==> ids[i] in db.jobs
    ensures |r| == |ids|
    ensures forall i :: 0 <= i < |r| ==> r[i] == JobListing(ids[i], db.jobs[ids[i]], ids[i] in applied)
  {
    r := [];
    for k := 0 to |ids|
      invariant |r| == k
      invariant forall i :: 0 <= i < k ==> r[i] == JobListing(ids[i], db.jobs[ids[i]], ids[i] in applied)
    {
      r := r + [JobListing(ids[k], db.jobs[ids[k]], ids[k] in applied)];
    }
  }

  /** `getActiveJobs(type, location, search, candidateId)`. */
  method GetActiveJobs(db: Db, jobType: Option<string>, location: Option<string>, search: Option<string>, candidateId: Option<Id>)
    returns (r: seq<JobListing>)
    ensures var rows := ActiveRows(db, JobFilter(ResolveType(jobType), location, search));
      && |r| == |rows|
      && (forall j :: j in rows <==> exists i :: 0 <= i < |r| && r[i].id == j)
      && (forall i :: 0 <= i < |r| ==> r[i].id in db.jobs && r[i].job == db.jobs[r[i].id])
    ensures forall i :: 0 <= i < |r| ==>
      (r[i].hasApplied <==> candidateId.Some? && r[i].id in AppliedJobIds(db, candidateId.value))
    ensures forall i, j :: 0 <= i < j < |r| ==> r[i].id != r[j].id && r[i].job.createdAt >= r[j].job.createdAt
  {
    var f := JobFilter(ResolveType(jobType), location, search);
    var ids := FindActiveJobs(db, f);
    var applied: set<Id> := if candidateId.Some? then AppliedJobIds(db, candidateId.value) else {};
    r := Listings(db, ids, applied);
    assert forall j :: j in ids ==> exists i :: 0 <= i < |r| && r[i].id == j by {
      forall j | j in ids ensures exists i :: 0 <= i < |r| && r[i].id == j {
        var i :| 0 <= i < |ids| && ids[i] == j;
        assert r[i].id == j;
      }
    }
  }

  /** `getJobById`: only an ACTIVE job is found (`findActiveById`). */
  function GetJobById(db: Db, id: Id): (r: Result<JobOffer, Fault>)
    ensures r.Ok? <==> JobHasEnterprise(db, id) && db.jobs[id].status == Active
    ensures r.Err? ==> r.error == JobNotFound
    ensures r.Ok? ==> r.value == db.jobs[id]
  {
    if JobHasEnterprise(db, id) && db.jobs[id].status == Active then Ok(db.jobs[id]) else Err(JobNotFound)
  }

  /** A closed job cannot be fetched by id, though `apply` still finds it. */
  lemma ClosedJobHidden(db: Db, id: Id)
    requires id in db.jobs && db.jobs[id].status == Closed
    ensures GetJobById(db, id) == Err(JobNotFound)
  {
  }

  // ---------------------------------------------------------------------
  // The enterprise's jobs and the counts
  // ---------------------------------------------------------------------

  /** Job `j` belongs to the enterprise whose profile id is `enterpriseId`. */
  predicate OwnedBy(db: Db, j: Id, enterpriseId: Id)
    requires j in db.jobs
  {
    EnterpriseOf(db, db.jobs[j].enterprise).Some? && EnterpriseOf(db, db.jobs[j].enterprise).value.id == enterpriseId
  }

  function JobsOf(db: Db, enterpriseId: Id): set<Id> {
    set j | j in db.jobs && OwnedBy(db, j, enterpriseId)
  }

  function JobsOfWithStatus(db: Db, enterpriseId: Id, status: JobStatus): set<Id> {
    set j | j in db.jobs && OwnedBy(db, j, enterpriseId) && db.jobs[j].status == status
  }

  /** `countByEnterpriseId`. */
  function CountByEnterprise(db: Db, enterpriseId: Id): nat {
    |JobsOf(db, enterpriseId)|
  }

  /** `countByEnterpriseIdAndStatus`. */
  function CountByEnterpriseAndStatus(db: Db, enterpriseId: Id, status: JobStatus): nat {
    |JobsOfWithStatus(db, enterpriseId, status)|
  }

  /** Every job of an enterprise is either active or closed, so the two
      status counts add up to the total. */
  lemma StatusCountsPartition(db: Db, enterpriseId: Id)
    ensures CountByEnterpriseAndStatus(db, enterpriseId, Active) + CountByEnterpriseAndStatus(db, enterpriseId, Closed)
            == CountByEnterprise(db, enterpriseId)
  {
    var act, clo := JobsOfWithStatus(db, enterpriseId, Active), JobsOfWithStatus(db, enterpriseId, Closed);
    assert act * clo == {};
    assert act + clo == JobsOf(db, enterpriseId);
    DisjointUnionCount(act, clo);
  }

  lemma {:induction false} DisjointUnionCount(a: set<Id>, b: set<Id>)
    requires a * b == {}
    ensures |a + b| == |a| + |b|
    decreases a
  {
    if a != {} {
      var x :| x in a;
      DisjointUnionCount(a - {x}, b);
      assert (a - {x}) + b == (a + b) - {x};
    }
  }

  /** `getEnterpriseJobs(userId)`: 404 without an enterprise profile;
      otherwise that enterprise's jobs, any status, newest first. */
  method GetEnterpriseJobs(db: Db, user: Id) returns (r: Result<seq<Id>, Fault>)
    ensures r.Err? <==> EnterpriseOf(db, user).None?
    ensures r.Err? ==> r.error == EnterpriseNotFound
    ensures r.Ok? ==> (forall j :: j in r.value <==> j in JobsOf(db, EnterpriseOf(db, user).value.id))
    ensures r.Ok? ==> Ordering.Distinct(r.value) && Ordering.Descending(r.value, CreatedAt(db))
  {
    if EnterpriseOf(db, user).None? {
      return Err(EnterpriseNotFound);
    }
    var ids := Ordering.SortDescending(JobsOf(db, EnterpriseOf(db, user).value.id), CreatedAt(db));
    return Ok(ids);
  }

  /** `JobOffer.getApplicationCount()`: the number of the job's applications. */
  function ApplicationCount(db: Db, job: Id): nat {
    |ApplicationsOf(db, job)|
  }

  /** The applications of a job, which a deletion of the job cascades to. */
  function ApplicationsOf(db: Db, job: Id): set<Id> {
    set a | a in db.applications && db.applications[a].job == job
  }

  /** A successful `apply` adds one to the applied job's count and leaves
      every other job's count alone. */
  lemma ApplyCountsOnce(db: Db, decode: string -> Option<seq<string>>, user: Id, job: Id, id: Id, noteId: Id, now: DateTime, other: Id)
    requires id !in db.applications && noteId !in db.notifications
    requires Applications.Apply(db, decode, user, job, id, noteId, now).Ok?
    ensures var db' := Applications.Apply(db, decode, user, job, id, noteId, now).value;
      && ApplicationCount(db', job) == ApplicationCount(db, job) + 1
      && (other != job ==> ApplicationCount(db', other) == ApplicationCount(db, other))
  {
    var db' := Applications.Apply(db, decode, user, job, id, noteId, now).value;
    assert Applications.Applied(db, db', decode, user, job, id, noteId, now);
    InsertCounts(db, db', id, job, other);
  }

  lemma InsertCounts(db: Db, db': Db, id: Id, job: Id, other: Id)
    requires id !in db.applications && db'.applications.Keys == db.applications.Keys + {id}
    requires forall a :: a in db.applications ==> db'.applications[a] == db.applications[a]
    requires db'.applications[id].job == job
    ensures ApplicationsOf(db', job) == ApplicationsOf(db, job) + {id}
    ensures other != job ==> ApplicationsOf(db', other) == ApplicationsOf(db, other)
  {
  }

  // ---------------------------------------------------------------------
  // Writes
  // ---------------------------------------------------------------------

  /** The body of a create or update request. */
  datatype JobRequest = JobRequest(
    title: string,
    description: string,
    jobType: JobType,
    salary: Option<string>,
    location: string,
    requirements: Option<string>,
    status: Option<JobStatus>)

  /** `createJob(userId, request)`: 404 without an enterprise profile;
      otherwise a new ACTIVE job whose requirements are the JSON encoding of
      the request's comma-separated list. */
  function CreateJob(db: Db, user: Id, req: JobRequest, id: Id, now: DateTime): (r: Result<Db, Fault>)
    requires id !in db.jobs
    ensures r.Err? <==> EnterpriseOf(db, user).None?
    ensures r.Err? ==> r.error == EnterpriseProfileNotFound
    ensures r.Ok? ==> r.value.(jobs := db.jobs) == db
    ensures r.Ok? ==> r.value.jobs.Keys == db.jobs.Keys + {id}
    ensures r.Ok? ==> forall j :: j in db.jobs ==> r.value.jobs[j] == db.jobs[j]
    ensures r.Ok? ==> var job := r.value.jobs[id];
      && job.enterprise == user && job.status == Active
      && job.title == req.title && job.description == req.description && job.jobType == req.jobType
      && job.salary == req.salary && job.location == req.location
      && job.requirements == Some(ToJsonArray(req.requirements))
      && job.createdAt == now
  {
    if EnterpriseOf(db, user).None? then Err(EnterpriseProfileNotFound)
    else
      var job := NewJobOffer(user, req.title, req.description, req.jobType, req.location, now)
        .(salary := req.salary, requirements := Some(ToJsonArray(req.requirements)), status := Active);
      Ok(db.(jobs := db.jobs[id := job]))
  }

  /** The requirements stored by `createJob` read back, through any decoder
      that inverts the encoder, as the request's trimmed, non-blank items in
      order; the store invariant is kept. */
  lemma CreateJobRequirements(db: Db, user: Id, req: JobRequest, id: Id, now: DateTime, decode: string -> Option<seq<string>>)
    requires id !in db.jobs && CreateJob(db, user, req, id, now).Ok?
    requires forall xs :: decode(EncodeList(xs)) == Some(xs)
    ensures ParseList(decode, CreateJob(db, user, req, id, now).value.jobs[id].requirements) == RequirementItems(req.requirements)
    ensures Valid(db) ==> Valid(CreateJob(db, user, req, id, now).value)
  {
    RequirementsRoundTrip(decode, req.requirements);
  }

  /** The job `updateJob` writes: every request field, the status only when
      one is given. */
  function Edited(job: JobOffer, req: JobRequest): (e: JobOffer)
    ensures e.enterprise == job.enterprise && e.createdAt == job.createdAt && e.updatedAt == job.updatedAt
    ensures e.status == (if req.status.Some? then req.status.value else job.status)
  {
    job.(title := req.title, description := req.description, jobType := req.jobType, salary := req.salary,
         location := req.location, requirements := Some(ToJsonArray(req.requirements)),
         status := if req.status.Some? then req.status.value else job.status)
  }

  /** `updateJob(jobId, request)`: a plain `findById`, so a closed job can be
      edited too; applications and their stamped scores are not touched. */
  function UpdateJob(db: Db, id: Id, req: JobRequest, now: DateTime): (r: Result<Db, Fault>)
    ensures r.Err? <==> id !in db.jobs
    ensures r.Err? ==> r.error == JobNotFound
    ensures r.Ok? ==> r.value.(jobs := db.jobs) == db
    ensures r.Ok? ==> r.value.jobs.Keys == db.jobs.Keys
    ensures r.Ok? ==> forall j :: j in db.jobs && j != id ==> r.value.jobs[j] == db.jobs[j]
    ensures r.Ok? ==> r.value.jobs[id] == TouchJob(db.jobs[id], Edited(db.jobs[id], req), now)
  {
    if id !in db.jobs then Err(JobNotFound)
    else Ok(db.(jobs := db.jobs[id := TouchJob(db.jobs[id], Edited(db.jobs[id], req), now)]))
  }

  /** After an edit the job keeps its owner and creation time, carries the
      request's fields, and every application keeps its score. */
  lemma UpdateJobKeepsScores(db: Db, id: Id, req: JobRequest, now: DateTime)
    requires UpdateJob(db, id, req, now).Ok?
    ensures var db' := UpdateJob(db, id, req, now).value;
      && db'.applications == db.applications
      && db'.jobs[id].enterprise == db.jobs[id].enterprise && db'.jobs[id].createdAt == db.jobs[id].createdAt
      && db'.jobs[id].title == req.title && db'.jobs[id].requirements == Some(ToJsonArray(req.requirements))
      && (req.status.None? ==> db'.jobs[id].status == db.jobs[id].status)
      && (Valid(db) ==> Valid(db'))
  {
  }

  /** `updateJobStatus(jobId, text)`: the job is looked up first, then the
      text must be a status name exactly as written. */
  function UpdateJobStatus(db: Db, id: Id, text: string, now: DateTime): (r: Result<Db, Fault>)
    ensures id !in db.jobs ==> r == Err(JobNotFound)
    ensures id in db.jobs && ParseJobStatus(text).None? ==> r == Err(UnknownConstant(text))
    ensures r.Ok? <==> id in db.jobs && ParseJobStatus(text).Some?
    ensures r.Ok? ==> r.value.(jobs := db.jobs) == db && r.value.jobs.Keys == db.jobs.Keys
    ensures r.Ok? ==> forall j :: j in db.jobs && j != id ==> r.value.jobs[j] == db.jobs[j]
    ensures r.Ok? ==> var job, job' := db.jobs[id], r.value.jobs[id];
      && job'.status == ParseJobStatus(text).value
      && job'.(status := job.status, updatedAt := job.updatedAt) == job
  {
    if id !in db.jobs then Err(JobNotFound)
    else match ParseJobStatus(text)
      case None => Err(UnknownConstant(text))
      case Some(s) => Ok(db.(jobs := db.jobs[id := TouchJob(db.jobs[id], db.jobs[id].(status := s), now)]))
  }

  /** Unlike the type filter, the status text is not upper-cased: a
      lower-case name fails. */
  lemma UpdateJobStatusCaseSensitive(db: Db, id: Id, now: DateTime)
    requires id in db.jobs
    ensures UpdateJobStatus(db, id, "closed", now) == Err(UnknownConstant("closed"))
    ensures UpdateJobStatus(db, id, "CLOSED", now).Ok?
  {
  }

  /** Changing a job's status keeps the store invariant and every
      application and score; in a valid store the job can then be fetched by
      id exactly when the new status is ACTIVE. */
  lemma UpdateJobStatusValid(db: Db, id: Id, text: string, now: DateTime)
    requires Valid(db) && UpdateJobStatus(db, id, text, now).Ok?
    ensures var db' := UpdateJobStatus(db, id, text, now).value;
      && Valid(db')
      && db'.applications == db.applications
      && (GetJobById(db', id).Ok? <==> ParseJobStatus(text) == Some(Active))
  {
  }

  /** `deleteJob(jobId)`: the job goes, with its applications and their
      interviews (cascade with orphan removal on both levels). */
  function DeleteJob(db: Db, id: Id): (r: Result<Db, Fault>)
    ensures r.Err? <==> id !in db.jobs
    ensures r.Err? ==> r.error == JobNotFound
    ensures r.Ok? ==> && r.value.jobs.Keys == db.jobs.Keys - {id}
                      && r.value.applications.Keys == db.applications.Keys - ApplicationsOf(db, id)
                      && r.value.interviews.Keys == db.interviews.Keys - ApplicationsOf(db, id)
                      && (forall j :: j in r.value.jobs ==> r.value.jobs[j] == db.jobs[j])
                      && (forall a :: a in r.value.applications ==> r.value.applications[a] == db.applications[a])
                      && (forall a :: a in r.value.interviews ==> r.value.interviews[a] == db.interviews[a])
                      && r.value.users == db.users && r.value.notifications == db.notifications
  {
    if id !in db.jobs then Err(JobNotFound)
    else
      var gone := ApplicationsOf(db, id);
      Ok(db.(jobs := db.jobs - {id}, applications := db.applications - gone, interviews := db.interviews - gone))
  }

  /** After deleting a job no application refers to it, and the store
      invariant is kept. */
  lemma DeleteJobValid(db: Db, id: Id)
    requires DeleteJob(db, id).Ok?
    ensures forall a :: a in DeleteJob(db, id).value.applications ==> DeleteJob(db, id).value.applications[a].job != id
    ensures Valid(db) ==> Valid(DeleteJob(db, id).value)
  {
    if Valid(db) {
      var gone := ApplicationsOf(db, id);
      RemoveJobKeepsLinks(db.users, db.jobs, db.applications, id, gone);
      RemoveKeepsUnique(db.applications, db.interviews, gone);
    }
  }

  /** Dropping a job together with all its applications leaves every
      remaining application linked, and every remaining job owned. */
  lemma RemoveJobKeepsLinks(users: map<Id, User>, jobs: map<Id, JobOffer>, apps: map<Id, Application>, id: Id, gone: set<Id>)
    requires forall a :: a in apps && apps[a].job == id ==> a in gone
    requires ApplicationsLinked(users, jobs, apps) && JobsOwned(users, jobs)
    ensures ApplicationsLinked(users, jobs - {id}, apps - gone) && JobsOwned(users, jobs - {id})
  {
  }

  /** Removing rows keeps unique columns unique, scores bounded, and every
      remaining interview owned. */
  lemma RemoveKeepsUnique(apps: map<Id, Application>, interviews: map<Id, Interview>, gone: set<Id>)
    requires UniquePairs(apps) && ScoresBounded(apps) && UniqueInterviewIds(interviews) && InterviewsOwned(interviews, apps)
    ensures UniquePairs(apps - gone) && ScoresBounded(apps - gone) && UniqueInterviewIds(interviews - gone)
    ensures InterviewsOwned(interviews - gone, apps - gone)
  {
  }
}
