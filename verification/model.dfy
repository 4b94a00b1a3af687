/** The persistent entities of the recruitment back end, the store that holds
    them, and the repository look-ups the services share.

    Every table is a map from id to record.  Candidate and enterprise profiles
    are one-to-one with their user (User.java cascades both), so they are kept
    inside the `User` record; an application names its candidate, and a job its
    enterprise, by the owning user's id.  Interviews are keyed by the id of the
    application they belong to, which is the unique `application_id` column. */
module Model {
  import opened Wrappers

  type Id = nat

  /** A `LocalDateTime`, as a point on a totally ordered clock. */
  type DateTime = int

  datatype Role = Candidate | Enterprise | Admin

  datatype ApplicationStatus = Pending | InterviewScheduled | Accepted | Rejected

  datatype InterviewStatus = Scheduled | Completed | Cancelled

  datatype JobStatus = Active | Closed

  datatype JobType = Cdi | Cdd | Freelance

  // ---------------------------------------------------------------------
  // Enum constant names, as `Enum.name()` and `Enum.valueOf` see them
  // ---------------------------------------------------------------------

  function ApplicationStatusName(s: ApplicationStatus): string {
    match s
    case Pending => "PENDING"
    case InterviewScheduled => "INTERVIEW_SCHEDULED"
    case Accepted => "ACCEPTED"
    case Rejected => "REJECTED"
  }

  /** `ApplicationStatus.valueOf(name)`: exact, case-sensitive; `None` is the
      `IllegalArgumentException` it throws. */
  function ParseApplicationStatus(name: string): (r: Option<ApplicationStatus>)
    ensures forall s :: r == Some(s) <==> ApplicationStatusName(s) == name
  {
    if name == "PENDING" then Some(Pending)
    else if name == "INTERVIEW_SCHEDULED" then Some(InterviewScheduled)
    else if name == "ACCEPTED" then Some(Accepted)
    else if name == "REJECTED" then Some(Rejected)
    else None
  }

  function JobStatusName(s: JobStatus): string {
    match s
    case Active => "ACTIVE"
    case Closed => "CLOSED"
  }

  /** `JobStatus.valueOf(name)`. */
  function ParseJobStatus(name: string): (r: Option<JobStatus>)
    ensures forall s :: r == Some(s) <==> JobStatusName(s) == name
  {
    if name == "ACTIVE" then Some(Active)
    else if name == "CLOSED" then Some(Closed)
    else None
  }

  function JobTypeName(t: JobType): string {
    match t
    case Cdi => "CDI"
    case Cdd => "CDD"
    case Freelance => "FREELANCE"
  }

  /** `JobType.valueOf(name)`. */
  function ParseJobType(name: string): (r: Option<JobType>)
    ensures forall t :: r == Some(t) <==> JobTypeName(t) == name
  {
    if name == "CDI" then Some(Cdi)
    else if name == "CDD" then Some(Cdd)
    else if name == "FREELANCE" then Some(Freelance)
    else None
  }

  // ---------------------------------------------------------------------
  // Entities
  // ---------------------------------------------------------------------

  /** A candidate profile; every column but the id may be null. */
  datatype CandidateProfile = CandidateProfile(
    id: Id,
    firstName: Option<string>,
    lastName: Option<string>,
    skills: Option<string>,
    bio: Option<string>,
    phone: Option<string>,
    address: Option<string>,
    cvUrl: Option<string>)

  /** An enterprise profile; the company name is a non-null column. */
  datatype EnterpriseProfile = EnterpriseProfile(
    id: Id,
    companyName: string,
    description: Option<string>,
    industry: Option<string>,
    location: Option<string>,
    logoUrl: Option<string>)

  datatype User = User(
    email: string,
    password: string,
    role: Role,
    photoUrl: Option<string>,
    active: bool,
    deactivationReason: Option<string>,
    createdAt: DateTime,
    updatedAt: DateTime,
    candidate: Option<CandidateProfile>,
    enterprise: Option<EnterpriseProfile>)

  /** A job offer.  `enterprise` is the user id of the owning enterprise;
      `requirements` is the stored JSON text of the requirement list. */
  datatype JobOffer = JobOffer(
    enterprise: Id,
    title: string,
    description: string,
    jobType: JobType,
    salary: Option<string>,
    location: string,
    status: JobStatus,
    requirements: Option<string>,
    createdAt: DateTime,
    updatedAt: DateTime)

  /** An application of a candidate (by user id) to a job. */
  datatype Application = Application(
    candidate: Id,
    job: Id,
    status: ApplicationStatus,
    score: nat,
    anonymous: bool,
    createdAt: DateTime,
    updatedAt: DateTime)

  /** An interview; which application it belongs to is its key in the store. */
  datatype Interview = Interview(
    id: Id,
    date: DateTime,
    meetingLink: string,
    status: InterviewStatus,
    createdAt: DateTime,
    updatedAt: DateTime)

  datatype Notification = Notification(
    user: Id,
    content: string,
    read: bool,
    createdAt: DateTime)

  /** The database: one map per table.  `interviews` is keyed by application id. */
  datatype Db = Db(
    users: map<Id, User>,
    jobs: map<Id, JobOffer>,
    applications: map<Id, Application>,
    interviews: map<Id, Interview>,
    notifications: map<Id, Notification>)

  /** What a service call throws: an `ApiException` with its HTTP status, the
      `IllegalArgumentException` of an unknown enum constant, or the
      `DateTimeParseException` of a malformed date. */
  datatype Fault =
    | ApiError(status: nat, message: string)
    | UnknownConstant(name: string)
    | MalformedDate(text: string)

  /** Raised by both the application and the job service. */
  const JobNotFound := ApiError(404, "Job not found")

  // ---------------------------------------------------------------------
  // Constructors with the entity defaults
  // ---------------------------------------------------------------------

  /** `new Application(candidate, job)` persisted at `now`. */
  function NewApplication(candidate: Id, job: Id, now: DateTime): (a: Application)
    ensures a.candidate == candidate && a.job == job
    ensures a.status == Pending && a.score == 0 && !a.anonymous
    ensures a.createdAt == now == a.updatedAt
  {
    Application(candidate, job, Pending, 0, false, now, now)
  }

  /** `new Interview(application, date, link)` persisted at `now`. */
  function NewInterview(id: Id, date: DateTime, link: string, now: DateTime): (i: Interview)
    ensures i.id == id && i.date == date && i.meetingLink == link
    ensures i.status == Scheduled
    ensures i.createdAt == now == i.updatedAt
  {
    Interview(id, date, link, Scheduled, now, now)
  }

  /** `new JobOffer()` (requirements "[]", status ACTIVE) with its mandatory
      columns set, persisted at `now`. */
  function NewJobOffer(enterprise: Id, title: string, description: string, jobType: JobType, location: string, now: DateTime): (j: JobOffer)
    ensures j.enterprise == enterprise && j.title == title && j.description == description
    ensures j.jobType == jobType && j.location == location && j.salary == None
    ensures j.status == Active && j.requirements == Some("[]")
    ensures j.createdAt == now == j.updatedAt
  {
    JobOffer(enterprise, title, description, jobType, None, location, Active, Some("[]"), now, now)
  }

  // ---------------------------------------------------------------------
  // Update timestamps: `@PreUpdate` fires only when a column changed
  // ---------------------------------------------------------------------

  // Application, Interview and JobOffer each declare their own `onUpdate`
  // hook, and the record types share no common super-type here, so the
  // same dirty check is written once per entity.

  function TouchApplication(before: Application, after: Application, now: DateTime): (r: Application)
    ensures r.(updatedAt := after.updatedAt) == after
    ensures after.(updatedAt := before.updatedAt) == before ==> r == before
    ensures after.(updatedAt := before.updatedAt) != before ==> r.updatedAt == now
  {
    if after.(updatedAt := before.updatedAt) == before then before else after.(updatedAt := now)
  }

  function TouchInterview(before: Interview, after: Interview, now: DateTime): (r: Interview)
    ensures r.(updatedAt := after.updatedAt) == after
    ensures after.(updatedAt := before.updatedAt) == before ==> r == before
    ensures after.(updatedAt := before.updatedAt) != before ==> r.updatedAt == now
  {
    if after.(updatedAt := before.updatedAt) == before then before else after.(updatedAt := now)
  }

  function TouchJob(before: JobOffer, after: JobOffer, now: DateTime): (r: JobOffer)
    ensures r.(updatedAt := after.updatedAt) == after
    ensures after.(updatedAt := before.updatedAt) == before ==> r == before
    ensures after.(updatedAt := before.updatedAt) != before ==> r.updatedAt == now
  {
    if after.(updatedAt := before.updatedAt) == before then before else after.(updatedAt := now)
  }

  /** The user row is dirty only when one of its own columns changed; the
      profiles live in tables of their own. */
  function TouchUser(before: User, after: User, now: DateTime): (r: User)
    ensures r.(updatedAt := after.updatedAt) == after
    ensures after.(updatedAt := before.updatedAt, candidate := before.candidate, enterprise := before.enterprise) == before
            ==> r.updatedAt == before.updatedAt
    ensures after.(updatedAt := before.updatedAt, candidate := before.candidate, enterprise := before.enterprise) != before
            ==> r.updatedAt == now
  {
    if after.(updatedAt := before.updatedAt, candidate := before.candidate, enterprise := before.enterprise) == before
    then after.(updatedAt := before.updatedAt)
    else after.(updatedAt := now)
  }

  // ---------------------------------------------------------------------
  // Repository look-ups
  // ---------------------------------------------------------------------

  /** `CandidateProfileRepository.findByUserId`. */
  function CandidateOf(db: Db, user: Id): Option<CandidateProfile> {
    if user in db.users then db.users[user].candidate else None
  }

  /** `EnterpriseProfileRepository.findByUserId`. */
  function EnterpriseOf(db: Db, user: Id): Option<EnterpriseProfile> {
    if user in db.users then db.users[user].enterprise else None
  }

  /** `findByIdWithEnterprise` finds the job: it exists and the inner join
      with its enterprise profile succeeds.  The job's status plays no part. */
  predicate JobHasEnterprise(db: Db, job: Id) {
    job in db.jobs && EnterpriseOf(db, db.jobs[job].enterprise).Some?
  }

  /** `findByIdWithDetails` finds the application: the inner joins with its
      candidate profile, its job and that job's enterprise all succeed. */
  predicate AppHasDetails(db: Db, app: Id) {
    app in db.applications
    && CandidateOf(db, db.applications[app].candidate).Some?
    && JobHasEnterprise(db, db.applications[app].job)
  }

  /** `findByCandidateAndJob` finds a row, selecting the candidate by the
      user the application belongs to. */
  predicate HasApplied(db: Db, candidate: Id, job: Id) {
    exists a :: a in db.applications && db.applications[a].candidate == candidate && db.applications[a].job == job
  }

  /** Application `a` is by the candidate whose profile id is `candidateId`,
      the column the repository queries compare. */
  predicate ByCandidate(db: Db, a: Id, candidateId: Id)
    requires a in db.applications
  {
    CandidateOf(db, db.applications[a].candidate).Some? && CandidateOf(db, db.applications[a].candidate).value.id == candidateId
  }

  /** `findByCandidateAndJob` as the query states it: by profile id. */
  predicate HasAppliedByProfile(db: Db, candidateId: Id, job: Id) {
    exists a :: a in db.applications && ByCandidate(db, a, candidateId) && db.applications[a].job == job
  }

  // ---------------------------------------------------------------------
  // The store invariant
  // ---------------------------------------------------------------------

  /** The unique constraint on (candidate_id, job_offer_id). */
  predicate UniquePairs(apps: map<Id, Application>) {
    forall a, b :: a in apps && b in apps && a != b ==>
      (apps[a].candidate, apps[a].job) != (apps[b].candidate, apps[b].job)
  }

  /** The unique id column of the interview table. */
  predicate UniqueInterviewIds(interviews: map<Id, Interview>) {
    forall a, b :: a in interviews && b in interviews && a != b ==> interviews[a].id != interviews[b].id
  }

  /** The unique email column of the user table, the part of
      `UniqueUserKeys` that login relies on. */
  predicate UniqueEmails(users: map<Id, User>) {
    forall u, v :: u in users && v in users && u != v ==> users[u].email != users[v].email
  }

  /** Every application's candidate has a profile and its job exists. */
  predicate ApplicationsLinked(users: map<Id, User>, jobs: map<Id, JobOffer>, apps: map<Id, Application>) {
    forall a :: a in apps ==>
      apps[a].candidate in users && users[apps[a].candidate].candidate.Some? && apps[a].job in jobs
  }

  /** Every stamped score is a percentage. */
  predicate ScoresBounded(apps: map<Id, Application>) {
    forall a :: a in apps ==> apps[a].score <= 100
  }

  /** Every interview belongs to an existing application. */
  predicate InterviewsOwned(interviews: map<Id, Interview>, apps: map<Id, Application>) {
    interviews.Keys <= apps.Keys
  }

  /** Every job's enterprise user has an enterprise profile. */
  predicate JobsOwned(users: map<Id, User>, jobs: map<Id, JobOffer>) {
    forall j :: j in jobs ==> jobs[j].enterprise in users && users[jobs[j].enterprise].enterprise.Some?
  }

  /** Two user rows clash on no unique key: not on the email column, and not
      on the primary key of the candidate or of the enterprise profile table. */
  predicate KeysDiffer(a: User, b: User) {
    && a.email != b.email
    && (a.candidate.Some? && b.candidate.Some? ==> a.candidate.value.id != b.candidate.value.id)
    && (a.enterprise.Some? && b.enterprise.Some? ==> a.enterprise.value.id != b.enterprise.value.id)
  }

  /** The unique columns of the user table and the profile tables. */
  predicate UniqueUserKeys(users: map<Id, User>) {
    forall u, v :: u in users && v in users && u != v ==> KeysDiffer(users[u], users[v])
  }

  /** No profile of `users` has the id `p`: a freshly generated key. */
  predicate ProfileIdUnused(users: map<Id, User>, p: Id) {
    forall u :: u in users ==>
      && (users[u].candidate.Some? ==> users[u].candidate.value.id != p)
      && (users[u].enterprise.Some? ==> users[u].enterprise.value.id != p)
  }

  /** Adding a user whose email and profile id are new keeps the unique
      columns of the user and profile tables unique. */
  lemma AddUserKeepsUnique(users: map<Id, User>, id: Id, u: User)
    requires id !in users && UniqueUserKeys(users)
    requires forall v :: v in users ==> users[v].email != u.email
    requires u.candidate.Some? ==> ProfileIdUnused(users, u.candidate.value.id)
    requires u.enterprise.Some? ==> ProfileIdUnused(users, u.enterprise.value.id)
    ensures UniqueUserKeys(users[id := u])
  {
  }

  /** Adding a user under a new id keeps every row that refers to a user
      linked. */
  lemma AddUserKeepsLinks(users: map<Id, User>, jobs: map<Id, JobOffer>, apps: map<Id, Application>,
                          notes: map<Id, Notification>, id: Id, u: User)
    requires id !in users
    requires ApplicationsLinked(users, jobs, apps) && JobsOwned(users, jobs) && NotificationsOwned(users, notes)
    ensures ApplicationsLinked(users[id := u], jobs, apps) && JobsOwned(users[id := u], jobs)
    ensures NotificationsOwned(users[id := u], notes)
  {
  }

  /** Every notification is addressed to an existing user. */
  predicate NotificationsOwned(users: map<Id, User>, notes: map<Id, Notification>) {
    forall n :: n in notes ==> notes[n].user in users
  }

  /** The foreign keys and unique columns of the schema, and the score range. */
  predicate Valid(db: Db) {
    && ApplicationsLinked(db.users, db.jobs, db.applications)
    && ScoresBounded(db.applications)
    && UniquePairs(db.applications)
    && InterviewsOwned(db.interviews, db.applications)
    && UniqueInterviewIds(db.interviews)
    && JobsOwned(db.users, db.jobs)
    && NotificationsOwned(db.users, db.notifications)
    && UniqueUserKeys(db.users)
  }

  /** Changing one application, but not its candidate or job, keeps the
      pairs unique and the links intact. */
  lemma RewriteKeepsLinks(users: map<Id, User>, jobs: map<Id, JobOffer>, apps: map<Id, Application>, id: Id, app: Application)
    requires id in apps && app.candidate == apps[id].candidate && app.job == apps[id].job
    requires UniquePairs(apps) && ApplicationsLinked(users, jobs, apps)
    ensures UniquePairs(apps[id := app]) && ApplicationsLinked(users, jobs, apps[id := app])
  {
    assert forall a :: a in apps[id := app] ==>
      apps[id := app][a].candidate == apps[a].candidate && apps[id := app][a].job == apps[a].job;
  }

  /** Adding an application with a new pair and an existing candidate and
      job keeps the pairs unique and the links intact. */
  lemma InsertKeepsLinks(users: map<Id, User>, jobs: map<Id, JobOffer>, apps: map<Id, Application>, id: Id, app: Application)
    requires id !in apps
    requires forall a :: a in apps ==> (apps[a].candidate, apps[a].job) != (app.candidate, app.job)
    requires app.candidate in users && users[app.candidate].candidate.Some? && app.job in jobs
    requires UniquePairs(apps) && ApplicationsLinked(users, jobs, apps)
    ensures UniquePairs(apps[id := app]) && ApplicationsLinked(users, jobs, apps[id := app])
  {
    var apps' := apps[id := app];
    forall a, b | a in apps' && b in apps' && a != b
      ensures (apps'[a].candidate, apps'[a].job) != (apps'[b].candidate, apps'[b].job)
    {
      if a == id || b == id {
        var other := if a == id then b else a;
        assert apps'[other] == apps[other];
      }
    }
  }

  /** In a valid store the inner joins never drop a row: every job is found
      with its enterprise and every application with its details. */
  lemma JoinsTotal(db: Db)
    requires Valid(db)
    ensures forall j :: JobHasEnterprise(db, j) <==> j in db.jobs
    ensures forall a :: AppHasDetails(db, a) <==> a in db.applications
  {
  }

  /** In a valid store at most one application links a candidate to a job. */
  lemma ApplicationOfPair(db: Db, a: Id, b: Id)
    requires Valid(db)
    requires a in db.applications && b in db.applications
    requires db.applications[a].candidate == db.applications[b].candidate
    requires db.applications[a].job == db.applications[b].job
    ensures a == b
  {
  }

  /** In a valid store a candidate profile id names exactly one user, so an
      application is by that profile exactly when it belongs to that user. */
  lemma ByCandidateIffUser(db: Db, user: Id, a: Id)
    requires Valid(db) && a in db.applications && CandidateOf(db, user).Some?
    ensures ByCandidate(db, a, CandidateOf(db, user).value.id) <==> db.applications[a].candidate == user
  {
  }

  /** `findByCandidateAndJob` gives the same answer whether the candidate is
      selected by profile id, as the query does, or by user id. */
  lemma HasAppliedByProfileAgrees(db: Db, user: Id, job: Id)
    requires Valid(db) && CandidateOf(db, user).Some?
    ensures HasApplied(db, user, job) <==> HasAppliedByProfile(db, CandidateOf(db, user).value.id, job)
  {
    forall a | a in db.applications {
      ByCandidateIffUser(db, user, a);
    }
  }
}
