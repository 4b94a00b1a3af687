/** The user service: account activation, partial profile updates, the
    administrator's user details and the two dashboards. */
module Users {
  import opened Wrappers
  import opened Model
  import opened Responses
  import Applications
  import Interviews
  import Jobs
  import Ordering

  const UserNotFound := ApiError(404, "User not found")
  const CandidateProfileNotFound := ApiError(404, "Candidate profile not found")
  const EnterpriseProfileNotFound := ApiError(404, "Enterprise profile not found")

  // ---------------------------------------------------------------------
  // Activation
  // ---------------------------------------------------------------------

  /** `updateUserStatus(request)`: sets the active flag; deactivating stores
      the given reason and activating clears it. */
  function UpdateUserStatus(db: Db, user: Id, active: bool, reason: Option<string>, now: DateTime): (r: Result<Db, Fault>)
    ensures r.Err? <==> user !in db.users
    ensures r.Err? ==> r.error == UserNotFound
    ensures r.Ok? ==> r.value.(users := db.users) == db && r.value.users.Keys == db.users.Keys
    ensures r.Ok? ==> forall u :: u in db.users && u != user ==> r.value.users[u] == db.users[u]
    ensures r.Ok? ==> var u, u' := db.users[user], r.value.users[user];
      && u'.active == active
      && u'.deactivationReason == (if active then None else reason)
      && u'.(active := u.active, deactivationReason := u.deactivationReason, updatedAt := u.updatedAt) == u
  {
    if user !in db.users then Err(UserNotFound)
    else
      var u := db.users[user];
      Ok(db.(users := db.users[user := TouchUser(u, u.(active := active, deactivationReason := if active then None else reason), now)]))
  }

  /** Reactivating a deactivated account restores its flag and clears the
      reason, whatever the reason was; and the store invariant is kept. */
  lemma DeactivateThenActivate(db: Db, user: Id, reason: Option<string>, now: DateTime, later: DateTime)
    requires user in db.users
    ensures var db1 := UpdateUserStatus(db, user, false, reason, now).value;
      && !db1.users[user].active && db1.users[user].deactivationReason == reason
      && var db2 := UpdateUserStatus(db1, user, true, None, later).value;
      && db2.users[user].active && db2.users[user].deactivationReason == None
      && db2.users[user].email == db.users[user].email
  {
  }

  lemma UpdateUserStatusValid(db: Db, user: Id, active: bool, reason: Option<string>, now: DateTime)
    requires Valid(db) && UpdateUserStatus(db, user, active, reason, now).Ok?
    ensures Valid(UpdateUserStatus(db, user, active, reason, now).value)
  {
    var db' := UpdateUserStatus(db, user, active, reason, now).value;
    assert db' == db.(users := db'.users);
    UsersRewriteKeepsValid(db, db'.users);
  }

  /** Rewriting user rows keeps the store invariant as long as no email
      changes and no profile appears, disappears or changes its id. */
  lemma UsersRewriteKeepsValid(db: Db, users: map<Id, User>)
    requires Valid(db) && users.Keys == db.users.Keys
    requires forall u :: u in users ==> users[u].email == db.users[u].email
    requires forall u :: u in users ==> (users[u].candidate.Some? <==> db.users[u].candidate.Some?)
    requires forall u :: u in users ==> (users[u].enterprise.Some? <==> db.users[u].enterprise.Some?)
    requires forall u :: u in users && users[u].candidate.Some? ==> users[u].candidate.value.id == db.users[u].candidate.value.id
    requires forall u :: u in users && users[u].enterprise.Some? ==> users[u].enterprise.value.id == db.users[u].enterprise.value.id
    ensures Valid(db.(users := users))
  {
    var db' := db.(users := users);
    assert forall a :: a in db'.applications ==> CandidateOf(db', db'.applications[a].candidate).Some?;
    assert forall j :: j in db'.jobs ==> EnterpriseOf(db', db'.jobs[j].enterprise).Some?;
  }

  // ---------------------------------------------------------------------
  // Profile updates
  // ---------------------------------------------------------------------

  /** The body of a profile update; a `None` field is left unchanged. */
  datatype ProfileUpdate = ProfileUpdate(
    photoUrl: Option<string>,
    firstName: Option<string>,
    lastName: Option<string>,
    skills: Option<string>,
    bio: Option<string>,
    phone: Option<string>,
    address: Option<string>,
    cvUrl: Option<string>,
    companyName: Option<string>,
    description: Option<string>,
    industry: Option<string>,
    location: Option<string>,
    logoUrl: Option<string>)

  /** A nullable column after `if (value != null) set(value)`. */
  function Overwrite<T>(current: Option<T>, given: Option<T>): (r: Option<T>)
    ensures given.Some? ==> r == given
    ensures given.None? ==> r == current
  {
    if given.Some? then given else current
  }

  function UpdatedCandidate(p: CandidateProfile, q: ProfileUpdate): CandidateProfile {
    p.(firstName := Overwrite(p.firstName, q.firstName), lastName := Overwrite(p.lastName, q.lastName),
       skills := Overwrite(p.skills, q.skills), bio := Overwrite(p.bio, q.bio), phone := Overwrite(p.phone, q.phone),
       address := Overwrite(p.address, q.address), cvUrl := Overwrite(p.cvUrl, q.cvUrl))
  }

  function UpdatedEnterprise(p: EnterpriseProfile, q: ProfileUpdate): EnterpriseProfile {
    p.(companyName := if q.companyName.Some? then q.companyName.value else p.companyName,
       description := Overwrite(p.description, q.description), industry := Overwrite(p.industry, q.industry),
       location := Overwrite(p.location, q.location), logoUrl := Overwrite(p.logoUrl, q.logoUrl))
  }

  /** The user after `updateProfile`. */
  function UpdatedUser(u: User, q: ProfileUpdate, now: DateTime): User {
    TouchUser(u, u.(photoUrl := Overwrite(u.photoUrl, q.photoUrl),
                    candidate := if u.candidate.Some? then Some(UpdatedCandidate(u.candidate.value, q)) else None,
                    enterprise := if u.enterprise.Some? then Some(UpdatedEnterprise(u.enterprise.value, q)) else None), now)
  }

  /** `updateProfile(userId, request)`: only the given fields change, and
      only in the profiles the user already has; no profile is created. */
  function UpdateProfile(db: Db, user: Id, q: ProfileUpdate, now: DateTime): (r: Result<Db, Fault>)
    ensures r.Err? <==> user !in db.users
    ensures r.Err? ==> r.error == UserNotFound
    ensures r.Ok? ==> r.value.(users := db.users) == db && r.value.users.Keys == db.users.Keys
    ensures r.Ok? ==> forall u :: u in db.users && u != user ==> r.value.users[u] == db.users[u]
    ensures r.Ok? ==> var u, u' := db.users[user], r.value.users[user];
      && u'.email == u.email && u'.role == u.role && u'.active == u.active && u'.createdAt == u.createdAt
      && u'.photoUrl == (if q.photoUrl.Some? then q.photoUrl else u.photoUrl)
      && (u'.candidate.Some? <==> u.candidate.Some?) && (u'.enterprise.Some? <==> u.enterprise.Some?)
  {
    if user !in db.users then Err(UserNotFound)
    else Ok(db.(users := db.users[user := UpdatedUser(db.users[user], q, now)]))
  }

  /** Each candidate field is the request's value when one is given and the
      old value otherwise; the profile id never changes. */
  lemma UpdateProfileCandidateFields(db: Db, user: Id, q: ProfileUpdate, now: DateTime)
    requires user in db.users && db.users[user].candidate.Some?
    ensures var p, p' := db.users[user].candidate.value, UpdateProfile(db, user, q, now).value.users[user].candidate.value;
      && p'.id == p.id
      && p'.firstName == (if q.firstName.Some? then q.firstName else p.firstName)
      && p'.lastName == (if q.lastName.Some? then q.lastName else p.lastName)
      && p'.skills == (if q.skills.Some? then q.skills else p.skills)
      && p'.bio == (if q.bio.Some? then q.bio else p.bio)
      && p'.phone == (if q.phone.Some? then q.phone else p.phone)
      && p'.address == (if q.address.Some? then q.address else p.address)
      && p'.cvUrl == (if q.cvUrl.Some? then q.cvUrl else p.cvUrl)
  {
  }

  /** Each enterprise field is the request's value when one is given and the
      old value otherwise. */
  lemma UpdateProfileEnterpriseFields(db: Db, user: Id, q: ProfileUpdate, now: DateTime)
    requires user in db.users && db.users[user].enterprise.Some?
    ensures var p, p' := db.users[user].enterprise.value, UpdateProfile(db, user, q, now).value.users[user].enterprise.value;
      && p'.id == p.id
      && p'.companyName == (if q.companyName.Some? then q.companyName.value else p.companyName)
      && p'.description == (if q.description.Some? then q.description else p.description)
      && p'.industry == (if q.industry.Some? then q.industry else p.industry)
      && p'.location == (if q.location.Some? then q.location else p.location)
      && p'.logoUrl == (if q.logoUrl.Some? then q.logoUrl else p.logoUrl)
  {
  }

  /** The request that gives no field. */
  const NoChange := ProfileUpdate(None, None, None, None, None, None, None, None, None, None, None, None, None)

  /** On one user row: an empty request is a no-op, and a request applied a
      second time finds nothing left to change. */
  lemma UpdatedUserStable(u: User, q: ProfileUpdate, now: DateTime, later: DateTime)
    ensures UpdatedUser(u, NoChange, now) == u
    ensures UpdatedUser(UpdatedUser(u, q, now), q, later) == UpdatedUser(u, q, now)
  {
    assert u.candidate.Some? ==> UpdatedCandidate(u.candidate.value, NoChange) == u.candidate.value;
    assert u.enterprise.Some? ==> UpdatedEnterprise(u.enterprise.value, NoChange) == u.enterprise.value;
    var u1 := UpdatedUser(u, q, now);
    assert u1.candidate.Some? ==> UpdatedCandidate(u1.candidate.value, q) == u1.candidate.value;
    assert u1.enterprise.Some? ==> UpdatedEnterprise(u1.enterprise.value, q) == u1.enterprise.value;
  }

  /** An empty request changes nothing, not even the update time; and
      applying the same request twice is the same as applying it once. */
  lemma UpdateProfileIdempotent(db: Db, user: Id, q: ProfileUpdate, now: DateTime, later: DateTime)
    requires user in db.users
    ensures UpdateProfile(db, user, NoChange, now) == Ok(db)
    ensures var db1 := UpdateProfile(db, user, q, now).value;
      UpdateProfile(db1, user, q, later) == Ok(db1)
  {
    var u := db.users[user];
    UpdatedUserStable(u, q, now, later);
    assert db.users[user := u] == db.users;
    var db1 := UpdateProfile(db, user, q, now).value;
    assert db1.users[user := db1.users[user]] == db1.users;
  }

  lemma UpdateProfileValid(db: Db, user: Id, q: ProfileUpdate, now: DateTime)
    requires Valid(db) && UpdateProfile(db, user, q, now).Ok?
    ensures Valid(UpdateProfile(db, user, q, now).value)
  {
    var db' := UpdateProfile(db, user, q, now).value;
    UsersRewriteKeepsValid(db, db'.users);
    assert db' == db.(users := db'.users);
  }

  // ---------------------------------------------------------------------
  // Counts
  // ---------------------------------------------------------------------

  /** Application `a` is for a job of the enterprise whose profile id is
      `enterpriseId`. */
  predicate ForEnterprise(db: Db, a: Id, enterpriseId: Id)
    requires a in db.applications
  {
    var j := db.applications[a].job;
    j in db.jobs && EnterpriseOf(db, db.jobs[j].enterprise).Some? && EnterpriseOf(db, db.jobs[j].enterprise).value.id == enterpriseId
  }

  function OfCandidate(db: Db, candidateId: Id): set<Id> {
    set a | a in db.applications && ByCandidate(db, a, candidateId)
  }

  /** The rows of `rows` whose status is `s`. */
  function WithStatus(apps: map<Id, Application>, rows: set<Id>, s: ApplicationStatus): set<Id> {
    set a | a in rows && a in apps && apps[a].status == s
  }

  function OfCandidateWithStatus(db: Db, candidateId: Id, s: ApplicationStatus): set<Id> {
    WithStatus(db.applications, OfCandidate(db, candidateId), s)
  }

  function OfEnterprise(db: Db, enterpriseId: Id): set<Id> {
    set a | a in db.applications && ForEnterprise(db, a, enterpriseId)
  }

  function OfEnterpriseWithStatus(db: Db, enterpriseId: Id, s: ApplicationStatus): set<Id> {
    WithStatus(db.applications, OfEnterprise(db, enterpriseId), s)
  }

  /** `countByCandidateId`. */
  function CountByCandidate(db: Db, candidateId: Id): nat {
    |OfCandidate(db, candidateId)|
  }

  /** `countByCandidateIdAndStatus`. */
  function CountByCandidateAndStatus(db: Db, candidateId: Id, s: ApplicationStatus): nat {
    |OfCandidateWithStatus(db, candidateId, s)|
  }

  /** `countByEnterpriseId` of the application repository. */
  function CountByEnterprise(db: Db, enterpriseId: Id): nat {
    |OfEnterprise(db, enterpriseId)|
  }

  /** `countByEnterpriseIdAndStatus` of the application repository. */
  function CountByEnterpriseAndStatus(db: Db, enterpriseId: Id, s: ApplicationStatus): nat {
    |OfEnterpriseWithStatus(db, enterpriseId, s)|
  }

  /** Every application has exactly one of the four statuses, so the four
      status counts of a set of applications add up to its size. */
  lemma StatusesPartition(apps: map<Id, Application>, rows: set<Id>)
    requires rows <= apps.Keys
    ensures |WithStatus(apps, rows, Pending)| + |WithStatus(apps, rows, InterviewScheduled)|
          + |WithStatus(apps, rows, Accepted)| + |WithStatus(apps, rows, Rejected)| == |rows|
  {
    var p, i, a, x := WithStatus(apps, rows, Pending), WithStatus(apps, rows, InterviewScheduled),
                      WithStatus(apps, rows, Accepted), WithStatus(apps, rows, Rejected);
    Jobs.DisjointUnionCount(p, i);
    Jobs.DisjointUnionCount(p + i, a);
    Jobs.DisjointUnionCount(p + i + a, x);
    assert p + i + a + x == rows;
  }

  lemma CandidateCountsPartition(db: Db, candidateId: Id)
    ensures CountByCandidateAndStatus(db, candidateId, Pending) + CountByCandidateAndStatus(db, candidateId, InterviewScheduled)
          + CountByCandidateAndStatus(db, candidateId, Accepted) + CountByCandidateAndStatus(db, candidateId, Rejected)
          == CountByCandidate(db, candidateId)
  {
    StatusesPartition(db.applications, OfCandidate(db, candidateId));
  }

  lemma EnterpriseCountsPartition(db: Db, enterpriseId: Id)
    ensures CountByEnterpriseAndStatus(db, enterpriseId, Pending) + CountByEnterpriseAndStatus(db, enterpriseId, InterviewScheduled)
          + CountByEnterpriseAndStatus(db, enterpriseId, Accepted) + CountByEnterpriseAndStatus(db, enterpriseId, Rejected)
          == CountByEnterprise(db, enterpriseId)
  {
    StatusesPartition(db.applications, OfEnterprise(db, enterpriseId));
  }

  // ---------------------------------------------------------------------
  // User details
  // ---------------------------------------------------------------------

  /** The profile part of `getUserDetails`. */
  datatype ProfileDetails =
    | CandidateDetails(firstName: Option<string>, lastName: Option<string>, bio: Option<string>, phone: Option<string>,
                       address: Option<string>, cvUrl: Option<string>, skills: string)
    | EnterpriseDetails(companyName: string, description: Option<string>, industry: Option<string>,
                        location: Option<string>, logoUrl: Option<string>)

  datatype UserDetails = UserDetails(
    id: Id,
    email: string,
    role: Role,
    active: bool,
    photoUrl: Option<string>,
    createdAt: DateTime,
    profile: Option<ProfileDetails>,
    applicationCount: nat,
    jobCount: nat)

  /** The skills column as reported: "[]" when null or empty. */
  function ReportedSkills(skills: Option<string>): (s: string)
    ensures s != ""
    ensures skills.Some? && skills.value != "" ==> s == skills.value
  {
    if skills.Some? && skills.value != "" then skills.value else "[]"
  }

  /** `getUserDetails(userId)`.  A user with both profiles reports the
      enterprise one, which is filled in second. */
  function GetUserDetails(db: Db, user: Id): (r: Result<UserDetails, Fault>)
    ensures r.Err? <==> user !in db.users
    ensures r.Err? ==> r.error == UserNotFound
    ensures r.Ok? ==> var u, d := db.users[user], r.value;
      && d.id == user && d.email == u.email && d.role == u.role && d.active == u.active
      && d.photoUrl == u.photoUrl && d.createdAt == u.createdAt
      && (d.profile.None? <==> u.candidate.None? && u.enterprise.None?)
      && (u.enterprise.Some? ==> var e := u.enterprise.value;
            d.profile == Some(EnterpriseDetails(e.companyName, e.description, e.industry, e.location, e.logoUrl)))
      && (u.candidate.Some? && u.enterprise.None? ==> var c := u.candidate.value;
            d.profile == Some(CandidateDetails(c.firstName, c.lastName, c.bio, c.phone, c.address, c.cvUrl, ReportedSkills(c.skills))))
      && d.applicationCount == (if u.candidate.Some? then CountByCandidate(db, u.candidate.value.id) else 0)
      && d.jobCount == (if u.enterprise.Some? then Jobs.CountByEnterprise(db, u.enterprise.value.id) else 0)
  {
    if user !in db.users then Err(UserNotFound)
    else
      var u := db.users[user];
      var profile :=
        if u.enterprise.Some? then
          var e := u.enterprise.value;
          Some(EnterpriseDetails(e.companyName, e.description, e.industry, e.location, e.logoUrl))
        else if u.candidate.Some? then
          var c := u.candidate.value;
          Some(CandidateDetails(c.firstName, c.lastName, c.bio, c.phone, c.address, c.cvUrl, ReportedSkills(c.skills)))
        else None;
      Ok(UserDetails(user, u.email, u.role, u.active, u.photoUrl, u.createdAt, profile,
        if u.candidate.Some? then CountByCandidate(db, u.candidate.value.id) else 0,
        if u.enterprise.Some? then Jobs.CountByEnterprise(db, u.enterprise.value.id) else 0))
  }

  /** The details read after `updateProfile` show the update: each given
      field replaces the reported one, every other field and both counts are
      reported as before. */
  lemma DetailsAfterUpdate(db: Db, user: Id, q: ProfileUpdate, now: DateTime)
    requires user in db.users
    ensures UpdateProfile(db, user, q, now).Ok?
    ensures var d, d' := GetUserDetails(db, user).value, GetUserDetails(UpdateProfile(db, user, q, now).value, user).value;
      && d'.(photoUrl := d.photoUrl, profile := d.profile) == d
      && d'.photoUrl == Overwrite(d.photoUrl, q.photoUrl)
      && (d.profile.Some? && d.profile.value.EnterpriseDetails? ==> var p := d.profile.value;
            d'.profile == Some(EnterpriseDetails(if q.companyName.Some? then q.companyName.value else p.companyName,
              Overwrite(p.description, q.description), Overwrite(p.industry, q.industry),
              Overwrite(p.location, q.location), Overwrite(p.logoUrl, q.logoUrl))))
      && (d.profile.Some? && d.profile.value.CandidateDetails? ==> var p := d.profile.value;
            d'.profile == Some(CandidateDetails(Overwrite(p.firstName, q.firstName), Overwrite(p.lastName, q.lastName),
              Overwrite(p.bio, q.bio), Overwrite(p.phone, q.phone), Overwrite(p.address, q.address),
              Overwrite(p.cvUrl, q.cvUrl), if q.skills.Some? then ReportedSkills(q.skills) else p.skills)))
  {
    var u := db.users[user];
    UpdateProfileKeepsCounts(db, user, q, now);
    if u.candidate.Some? {
      UpdateProfileCandidateFields(db, user, q, now);
    }
    if u.enterprise.Some? {
      UpdateProfileEnterpriseFields(db, user, q, now);
    }
  }

  /** A profile update keeps every profile id, so the rows counted for the
      user's profiles stay the same. */
  lemma UpdateProfileKeepsCounts(db: Db, user: Id, q: ProfileUpdate, now: DateTime)
    requires user in db.users
    ensures var db', u := UpdateProfile(db, user, q, now).value, db.users[user];
      && (u.candidate.Some? ==> OfCandidate(db', u.candidate.value.id) == OfCandidate(db, u.candidate.value.id))
      && (u.enterprise.Some? ==> Jobs.JobsOf(db', u.enterprise.value.id) == Jobs.JobsOf(db, u.enterprise.value.id))
  {
  }

  /** An administrator, who has no profile, is reported with no profile and
      zero counts. */
  lemma AdminDetails(db: Db, user: Id)
    requires user in db.users && db.users[user].candidate.None? && db.users[user].enterprise.None?
    ensures GetUserDetails(db, user).Ok?
    ensures var d := GetUserDetails(db, user).value; d.profile == None && d.applicationCount == 0 && d.jobCount == 0
  {
  }

  // ---------------------------------------------------------------------
  // Dashboards
  // ---------------------------------------------------------------------

  datatype CandidateDashboard = CandidateDashboard(
    totalApplications: nat,
    pendingApplications: nat,
    interviews: nat,
    acceptedApplications: nat,
    upcomingInterviews: seq<InterviewResponse>)

  /** `getCandidateDashboardStats(userId)`. */
  method GetCandidateDashboard(db: Db, user: Id, now: DateTime) returns (r: Result<CandidateDashboard, Fault>)
    ensures r.Err? <==> CandidateOf(db, user).None?
    ensures r.Err? ==> r.error == CandidateProfileNotFound
    ensures r.Ok? ==> var c, d := CandidateOf(db, user).value.id, r.value;
      && d.totalApplications == CountByCandidate(db, c)
      && d.pendingApplications == CountByCandidateAndStatus(db, c, Pending)
      && d.interviews == CountByCandidateAndStatus(db, c, InterviewScheduled)
      && d.acceptedApplications == CountByCandidateAndStatus(db, c, Accepted)
      && d.pendingApplications + d.interviews + d.acceptedApplications <= d.totalApplications
    ensures r.Ok? ==> var rows, u := Interviews.UpcomingRows(db, user, now), r.value.upcomingInterviews;
      && |u| == (if |rows| <= 5 then |rows| else 5)
      && (forall i :: 0 <= i < |u| ==> exists k :: k in rows && u[i] == InterviewFromEntity(db.interviews[k], None, None))
      && (forall i :: 0 <= i < |u| ==> u[i].date >= now && u[i].status == Scheduled)
      && (forall i, j :: 0 <= i < j < |u| ==> u[i].date <= u[j].date)
      && (forall i, k :: 0 <= i < |u| && k in rows && (forall j :: 0 <= j < |u| ==> u[j].id != db.interviews[k].id) ==>
            db.interviews[k].date >= u[i].date)
      && (exists ks :: Interviews.RendersSoonest(db, rows, ks, u))
  {
    var c := CandidateOf(db, user);
    if c.None? {
      return Err(CandidateProfileNotFound);
    }
    var id := c.value.id;
    CandidateCountsPartition(db, id);
    var upcoming := Interviews.UpcomingInterviews(db, user, now, 5);
    return Ok(CandidateDashboard(CountByCandidate(db, id), CountByCandidateAndStatus(db, id, Pending),
      CountByCandidateAndStatus(db, id, InterviewScheduled), CountByCandidateAndStatus(db, id, Accepted), upcoming));
  }

  datatype EnterpriseDashboard = EnterpriseDashboard(
    activeJobs: nat,
    totalApplications: nat,
    pendingApplications: nat,
    scheduledInterviews: nat,
    recentApplications: seq<ApplicationResponse>)

  /** `getEnterpriseDashboardStats(userId)`: the counts, and the five newest
      applications rendered for the enterprise, anonymous ones masked. */
  method GetEnterpriseDashboard(db: Db, user: Id) returns (r: Result<EnterpriseDashboard, Fault>)
    ensures r.Err? <==> EnterpriseOf(db, user).None?
    ensures r.Err? ==> r.error == EnterpriseProfileNotFound
    ensures r.Ok? ==> var e, d := EnterpriseOf(db, user).value.id, r.value;
      && d.activeJobs == Jobs.CountByEnterpriseAndStatus(db, e, Active)
      && d.totalApplications == CountByEnterprise(db, e)
      && d.pendingApplications == CountByEnterpriseAndStatus(db, e, Pending)
      && d.scheduledInterviews == CountByEnterpriseAndStatus(db, e, InterviewScheduled)
      && d.pendingApplications + d.scheduledInterviews <= d.totalApplications
      && |d.recentApplications| == (if |Applications.EnterpriseRows(db, e)| <= 5 then |Applications.EnterpriseRows(db, e)| else 5)
      && (forall i :: 0 <= i < |d.recentApplications| ==>
            && d.recentApplications[i].id in Applications.EnterpriseRows(db, e)
            && d.recentApplications[i] == FromEntity(Load(db, d.recentApplications[i].id), true))
      && (forall i, j :: 0 <= i < j < |d.recentApplications| ==>
            d.recentApplications[i].id != d.recentApplications[j].id
            && d.recentApplications[i].createdAt >= d.recentApplications[j].createdAt)
      && (forall i, a ::
            (0 <= i < |d.recentApplications| && a in Applications.EnterpriseRows(db, e)
             && (forall j :: 0 <= j < |d.recentApplications| ==> d.recentApplications[j].id != a)) ==>
            db.applications[a].createdAt <= d.recentApplications[i].createdAt)
  {
    var ep := EnterpriseOf(db, user);
    if ep.None? {
      return Err(EnterpriseProfileNotFound);
    }
    var e := ep.value.id;
    EnterpriseCountsPartition(db, e);
    var recent := Applications.RenderTop(db, Applications.EnterpriseRows(db, e), 5, true);
    return Ok(EnterpriseDashboard(Jobs.CountByEnterpriseAndStatus(db, e, Active), CountByEnterprise(db, e),
      CountByEnterpriseAndStatus(db, e, Pending), CountByEnterpriseAndStatus(db, e, InterviewScheduled), recent));
  }
}
