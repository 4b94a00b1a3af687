/** The application service: applying to a job, the status and anonymity
    updates of the back office, deletion, and the four application lists. */
module Applications {
  import opened Wrappers
  import opened Text
  import opened Matching
  import opened Model
  import opened Notifications
  import opened Responses
  import Ordering

  const CandidateNotFound := ApiError(404, "Candidate profile not found")
  const AlreadyApplied := ApiError(400, "You have already applied to this job")
  const ApplicationNotFound := ApiError(404, "Application not found")

  // ---------------------------------------------------------------------
  // apply
  // ---------------------------------------------------------------------

  /** The text sent to the enterprise; `%.0f` of a whole number prints its
      decimal digits. */
  function ApplyMessage(title: string, score: nat): string {
    "New application received for \"" + title + "\" with " + NatToString(score) + "% match!"
  }

  /** The score `apply` stamps on the application of `user` to `job`. */
  function ApplyScore(db: Db, decode: string -> Option<seq<string>>, user: Id, job: Id): (s: nat)
    requires CandidateOf(db, user).Some? && job in db.jobs
    ensures s <= 100
  {
    CalculateMatchingScore(decode, CandidateOf(db, user).value.skills, db.jobs[job].requirements)
  }

  /** What a successful `apply` did to the store: one new PENDING, visible
      application carrying the matcher's score, and one notification to the
      job's enterprise user; nothing else changed. */
  predicate Applied(db: Db, db': Db, decode: string -> Option<seq<string>>, user: Id, job: Id, id: Id, noteId: Id, now: DateTime)
    requires CandidateOf(db, user).Some? && job in db.jobs
  {
    var score := ApplyScore(db, decode, user, job);
    && db'.users == db.users && db'.jobs == db.jobs && db'.interviews == db.interviews
    && db'.applications.Keys == db.applications.Keys + {id}
    && (forall a :: a in db.applications ==> db'.applications[a] == db.applications[a])
    && db'.applications[id] == NewApplication(user, job, now).(score := score)
    && AddsOne(db.notifications, db'.notifications, noteId,
               Notification(db.jobs[job].enterprise, ApplyMessage(db.jobs[job].title, score), false, now))
  }

  /** `apply(userId, jobId)`, with `id` and `noteId` the fresh row ids.  A
      failed call leaves the store unchanged. */
  function Apply(db: Db, decode: string -> Option<seq<string>>, user: Id, job: Id, id: Id, noteId: Id, now: DateTime): (r: Result<Db, Fault>)
    requires id !in db.applications && noteId !in db.notifications
    ensures CandidateOf(db, user).None? ==> r == Err(CandidateNotFound)
    ensures CandidateOf(db, user).Some? && HasApplied(db, user, job) ==> r == Err(AlreadyApplied)
    ensures CandidateOf(db, user).Some? && !HasApplied(db, user, job) && !JobHasEnterprise(db, job) ==> r == Err(JobNotFound)
    ensures r.Ok? <==> CandidateOf(db, user).Some? && !HasApplied(db, user, job) && JobHasEnterprise(db, job)
    ensures r.Ok? ==> Applied(db, r.value, decode, user, job, id, noteId, now)
  {
    if CandidateOf(db, user).None? then Err(CandidateNotFound)
    else if HasApplied(db, user, job) then Err(AlreadyApplied)
    else if !JobHasEnterprise(db, job) then Err(JobNotFound)
    else
      var score := ApplyScore(db, decode, user, job);
      var db1 := db.(applications := db.applications[id := NewApplication(user, job, now).(score := score)]);
      CreateNotification(db1, db.jobs[job].enterprise, ApplyMessage(db.jobs[job].title, score), noteId, now)
  }

  /** Adding an application whose candidate and job exist, whose score is a
      percentage and whose pair is new, plus a notification to an existing
      user, keeps the store invariant. */
  lemma InsertKeepsValid(db: Db, db': Db, id: Id, app: Application, noteId: Id, note: Notification)
    requires Valid(db)
    requires db'.users == db.users && db'.jobs == db.jobs && db'.interviews == db.interviews
    requires db'.applications == db.applications[id := app] && id !in db.applications
    requires CandidateOf(db, app.candidate).Some? && app.job in db.jobs && app.score <= 100
    requires !HasApplied(db, app.candidate, app.job)
    requires AddsOne(db.notifications, db'.notifications, noteId, note) && note.user in db.users
    ensures Valid(db')
  {
    assert forall a :: a in db.applications ==>
      (db.applications[a].candidate, db.applications[a].job) != (app.candidate, app.job);
    InsertKeepsLinks(db.users, db.jobs, db.applications, id, app);
    AddsOneKeepsOwned(db.users, db.notifications, db'.notifications, noteId, note);
    assert ScoresBounded(db'.applications) && InterviewsOwned(db'.interviews, db'.applications);
  }

  /** A successful application keeps the store invariant: the new row's
      candidate and job exist, its score is a percentage, and the pair is new. */
  lemma ApplyValid(db: Db, decode: string -> Option<seq<string>>, user: Id, job: Id, id: Id, noteId: Id, now: DateTime)
    requires id !in db.applications && noteId !in db.notifications && Valid(db)
    requires Apply(db, decode, user, job, id, noteId, now).Ok?
    ensures Valid(Apply(db, decode, user, job, id, noteId, now).value)
  {
    var db' := Apply(db, decode, user, job, id, noteId, now).value;
    assert Applied(db, db', decode, user, job, id, noteId, now);
    var app := NewApplication(user, job, now).(score := ApplyScore(db, decode, user, job));
    assert db'.applications == db.applications[id := app];
    InsertKeepsValid(db, db', id, app, noteId, db'.notifications[noteId]);
  }

  /** Applying again to the same job is refused with 400, whatever ids are
      drawn: the (candidate, job) pair stays unique. */
  lemma ApplyTwiceFails(db: Db, decode: string -> Option<seq<string>>, user: Id, job: Id, id: Id, noteId: Id, now: DateTime,
                        id2: Id, noteId2: Id, later: DateTime)
    requires id !in db.applications && noteId !in db.notifications
    requires Apply(db, decode, user, job, id, noteId, now).Ok?
    requires var db' := Apply(db, decode, user, job, id, noteId, now).value;
      id2 !in db'.applications && noteId2 !in db'.notifications
    ensures var db' := Apply(db, decode, user, job, id, noteId, now).value;
      Apply(db', decode, user, job, id2, noteId2, later) == Err(AlreadyApplied)
  {
    var db' := Apply(db, decode, user, job, id, noteId, now).value;
    assert db'.applications[id].candidate == user && db'.applications[id].job == job;
    assert HasApplied(db', user, job);
  }

  /** The job's status plays no part: closing a job does not stop
      applications to it, and the outcome is the same. */
  lemma ApplyIgnoresJobStatus(db: Db, decode: string -> Option<seq<string>>, user: Id, job: Id, id: Id, noteId: Id, now: DateTime, status: JobStatus)
    requires id !in db.applications && noteId !in db.notifications && job in db.jobs
    ensures var closed := db.(jobs := db.jobs[job := db.jobs[job].(status := status)]);
      && (Apply(closed, decode, user, job, id, noteId, now).Ok? <==> Apply(db, decode, user, job, id, noteId, now).Ok?)
      && (Apply(closed, decode, user, job, id, noteId, now).Ok? ==>
            Apply(closed, decode, user, job, id, noteId, now).value.applications
            == Apply(db, decode, user, job, id, noteId, now).value.applications)
  {
    var closed := db.(jobs := db.jobs[job := db.jobs[job].(status := status)]);
    assert HasApplied(closed, user, job) == HasApplied(db, user, job);
    assert JobHasEnterprise(closed, job) == JobHasEnterprise(db, job);
  }

  /** The notification names the job and the score as a percentage. */
  lemma ApplyMessageMentions(title: string, score: nat)
    ensures Contains(ApplyMessage(title, score), "\"" + title + "\"")
    ensures Contains(ApplyMessage(title, score), NatToString(score) + "%")
    ensures DigitsValue(NatToString(score)) == score
  {
    var a := "New application received for ";
    var b := "\"" + title + "\"";
    var c := " with " + NatToString(score) + "% match!";
    assert ApplyMessage(title, score) == a + b + c;
    ContainsPiece(a, b, c);
    var a2 := a + b + " with ";
    var b2 := NatToString(score) + "%";
    var c2 := " match!";
    assert ApplyMessage(title, score) == a2 + b2 + c2;
    ContainsPiece(a2, b2, c2);
    NatToStringValue(score);
  }

  // ---------------------------------------------------------------------
  // updateStatus / updateApplicationStatus
  // ---------------------------------------------------------------------

  /** The verb of the status notification: only ACCEPTED reads "accepted". */
  function StatusWord(s: ApplicationStatus): (w: string)
    ensures w == "accepted" <==> s == Accepted
    ensures w == "rejected" <==> s != Accepted
  {
    if s == Accepted then "accepted" else "rejected"
  }

  function StatusMessage(title: string, s: ApplicationStatus): string {
    "Your application for \"" + title + "\" has been " + StatusWord(s) + "."
  }

  /** Only the status of `id` moved (and its update time, when it really
      changed); every other table but the notifications is as it was. */
  predicate StatusWritten(db: Db, db': Db, id: Id, status: ApplicationStatus, now: DateTime)
    requires id in db.applications
  {
    var app := db.applications[id];
    && db'.users == db.users && db'.jobs == db.jobs && db'.interviews == db.interviews
    && db'.applications.Keys == db.applications.Keys
    && (forall a :: a in db.applications && a != id ==> db'.applications[a] == db.applications[a])
    && db'.applications[id] == TouchApplication(app, app.(status := status), now)
  }

  /** `updateStatus(applicationId, status)`: 404 unless the application is
      found with its details; otherwise the status is overwritten, whatever
      it was, and the candidate's user is told. */
  function UpdateStatus(db: Db, id: Id, status: ApplicationStatus, noteId: Id, now: DateTime): (r: Result<Db, Fault>)
    requires noteId !in db.notifications
    ensures r.Err? <==> !AppHasDetails(db, id)
    ensures r.Err? ==> r.error == ApplicationNotFound
    ensures r.Ok? ==> StatusWritten(db, r.value, id, status, now)
    ensures r.Ok? ==> var app := db.applications[id];
      AddsOne(db.notifications, r.value.notifications, noteId,
              Notification(app.candidate, StatusMessage(db.jobs[app.job].title, status), false, now))
  {
    if !AppHasDetails(db, id) then Err(ApplicationNotFound)
    else
      var app := db.applications[id];
      var db1 := db.(applications := db.applications[id := TouchApplication(app, app.(status := status), now)]);
      CreateNotification(db1, app.candidate, StatusMessage(db.jobs[app.job].title, status), noteId, now)
  }

  /** The status update writes only the status: candidate, job, score,
      anonymity and creation time of the application stay as they were. */
  lemma UpdateStatusKeepsScore(db: Db, id: Id, status: ApplicationStatus, noteId: Id, now: DateTime)
    requires noteId !in db.notifications
    requires UpdateStatus(db, id, status, noteId, now).Ok?
    ensures var app, app' := db.applications[id], UpdateStatus(db, id, status, noteId, now).value.applications[id];
      && app'.status == status
      && app'.candidate == app.candidate && app'.job == app.job
      && app'.score == app.score && app'.anonymous == app.anonymous && app'.createdAt == app.createdAt
  {
  }

  /** No transition is guarded: an accepted application can be rejected, and
      a rejected one accepted. */
  lemma DecisionsReversible(db: Db, id: Id, from: ApplicationStatus, to: ApplicationStatus, noteId: Id, now: DateTime)
    requires noteId !in db.notifications && AppHasDetails(db, id)
    requires db.applications[id].status == from
    ensures UpdateStatus(db, id, to, noteId, now).Ok?
    ensures UpdateStatus(db, id, to, noteId, now).value.applications[id].status == to
  {
  }

  /** Rewriting an application without moving its candidate, job or score
      keeps the store invariant. */
  lemma RewriteKeepsValid(db: Db, id: Id, app: Application)
    requires Valid(db) && id in db.applications
    requires app.candidate == db.applications[id].candidate && app.job == db.applications[id].job
    requires app.score == db.applications[id].score
    ensures Valid(db.(applications := db.applications[id := app]))
  {
    RewriteKeepsLinks(db.users, db.jobs, db.applications, id, app);
  }

  /** A status update keeps the store invariant. */
  lemma UpdateStatusValid(db: Db, id: Id, status: ApplicationStatus, noteId: Id, now: DateTime)
    requires noteId !in db.notifications && Valid(db)
    requires UpdateStatus(db, id, status, noteId, now).Ok?
    ensures Valid(UpdateStatus(db, id, status, noteId, now).value)
  {
    var app := db.applications[id];
    var app' := TouchApplication(app, app.(status := status), now);
    RewriteKeepsValid(db, id, app');
    var db1 := db.(applications := db.applications[id := app']);
    CreateNotificationValid(db1, app.candidate, StatusMessage(db.jobs[app.job].title, status), noteId, now);
  }

  /** `updateApplicationStatus(applicationId, text)`: the text is upper-cased
      and must then name a status exactly; an unknown name fails before the
      application is even looked up. */
  function UpdateApplicationStatus(db: Db, id: Id, text: string, noteId: Id, now: DateTime): (r: Result<Db, Fault>)
    requires noteId !in db.notifications
    ensures ParseApplicationStatus(ToUpper(text)).None? ==> r == Err(UnknownConstant(ToUpper(text)))
    ensures forall s :: ToUpper(text) == ApplicationStatusName(s) ==> r == UpdateStatus(db, id, s, noteId, now)
  {
    match ParseApplicationStatus(ToUpper(text))
    case None => Err(UnknownConstant(ToUpper(text)))
    case Some(s) => UpdateStatus(db, id, s, noteId, now)
  }

  lemma UpperOfLower(s: string)
    ensures ToUpper(ToLower(s)) == ToUpper(s)
  {
  }

  /** The status text is read case-insensitively: a lower-cased text has the
      same effect as the original. */
  lemma UpdateApplicationStatusAnyCase(db: Db, id: Id, text: string, noteId: Id, now: DateTime)
    requires noteId !in db.notifications
    ensures UpdateApplicationStatus(db, id, ToLower(text), noteId, now) == UpdateApplicationStatus(db, id, text, noteId, now)
  {
    UpperOfLower(text);
  }

  // ---------------------------------------------------------------------
  // updateApplicationAnonymity / deleteApplication
  // ---------------------------------------------------------------------

  /** `updateApplicationAnonymity(applicationId, flag)`: a plain `findById`,
      so no join is needed; no notification is sent. */
  function UpdateAnonymity(db: Db, id: Id, anonymous: bool, now: DateTime): (r: Result<Db, Fault>)
    ensures r.Err? <==> id !in db.applications
    ensures r.Err? ==> r.error == ApplicationNotFound
    ensures r.Ok? ==> && r.value.applications.Keys == db.applications.Keys
                      && (forall a :: a in db.applications && a != id ==> r.value.applications[a] == db.applications[a])
                      && r.value.(applications := db.applications) == db
    ensures r.Ok? ==> var app, app' := db.applications[id], r.value.applications[id];
      && app'.anonymous == anonymous
      && app'.(anonymous := app.anonymous, updatedAt := app.updatedAt) == app
      && (app.anonymous == anonymous ==> app' == app)
  {
    if id !in db.applications then Err(ApplicationNotFound)
    else
      var app := db.applications[id];
      Ok(db.(applications := db.applications[id := TouchApplication(app, app.(anonymous := anonymous), now)]))
  }

  /** Toggling anonymity keeps the store invariant. */
  lemma UpdateAnonymityValid(db: Db, id: Id, anonymous: bool, now: DateTime)
    requires Valid(db) && UpdateAnonymity(db, id, anonymous, now).Ok?
    ensures Valid(UpdateAnonymity(db, id, anonymous, now).value)
  {
    var app := db.applications[id];
    RewriteKeepsValid(db, id, TouchApplication(app, app.(anonymous := anonymous), now));
  }

  /** `deleteApplication(applicationId)`: the row goes, and its interview with
      it (cascade with orphan removal). */
  function DeleteApplication(db: Db, id: Id): (r: Result<Db, Fault>)
    ensures r.Err? <==> id !in db.applications
    ensures r.Err? ==> r.error == ApplicationNotFound
    ensures r.Ok? ==> && id !in r.value.applications && id !in r.value.interviews
                      && r.value.applications.Keys == db.applications.Keys - {id}
                      && r.value.interviews.Keys == db.interviews.Keys - {id}
                      && (forall a :: a in r.value.applications ==> r.value.applications[a] == db.applications[a])
                      && (forall a :: a in r.value.interviews ==> r.value.interviews[a] == db.interviews[a])
                      && r.value.users == db.users && r.value.jobs == db.jobs
                      && r.value.notifications == db.notifications
  {
    if id !in db.applications then Err(ApplicationNotFound)
    else Ok(db.(applications := db.applications - {id}, interviews := db.interviews - {id}))
  }

  /** Deleting keeps the store invariant and frees the (candidate, job) pair,
      so the candidate may apply to that job again. */
  lemma DeleteApplicationValid(db: Db, id: Id)
    requires Valid(db) && id in db.applications
    ensures Valid(DeleteApplication(db, id).value)
    ensures !HasApplied(DeleteApplication(db, id).value, db.applications[id].candidate, db.applications[id].job)
  {
    var db' := DeleteApplication(db, id).value;
    var app := db.applications[id];
    if HasApplied(db', app.candidate, app.job) {
      var b :| b in db'.applications && db'.applications[b].candidate == app.candidate && db'.applications[b].job == app.job;
      ApplicationOfPair(db, id, b);
    }
  }

  // ---------------------------------------------------------------------
  // The lists
  // ---------------------------------------------------------------------

  /** The order key of `ORDER BY a.createdAt`. */
  function CreatedAt(db: Db): Id -> int {
    a => if a in db.applications then db.applications[a].createdAt else 0
  }

  /** `r` lists every row of `keep` exactly once, each rendered by
      `fromEntity`, newest first: what `ORDER BY a.createdAt DESC` over the
      selected rows returns. */
  predicate Listing(db: Db, keep: set<Id>, hideCandidate: bool, r: seq<ApplicationResponse>) {
    && keep <= db.applications.Keys
    && |r| == |keep|
    && (forall i :: 0 <= i < |r| ==> r[i].id in keep && r[i] == FromEntity(Load(db, r[i].id), hideCandidate))
    && (forall a :: a in keep ==> exists i :: 0 <= i < |r| && r[i].id == a)
    && (forall i, j :: 0 <= i < j < |r| ==> r[i].id != r[j].id && r[i].createdAt >= r[j].createdAt)
  }

  /** The rows of `keep` rendered by `fromEntity`, newest first, each once. */
  method Render(db: Db, keep: set<Id>, hideCandidate: bool) returns (r: seq<ApplicationResponse>)
    requires keep <= db.applications.Keys
    ensures Listing(db, keep, hideCandidate, r)
  {
    var ids := Ordering.SortDescending(keep, CreatedAt(db));
    r := [];
    for k := 0 to |ids|
      invariant |r| == k
      invariant forall i :: 0 <= i < k ==> r[i] == FromEntity(Load(db, ids[i]), hideCandidate)
    {
      r := r + [FromEntity(Load(db, ids[k]), hideCandidate)];
    }
    forall a | a in keep
      ensures exists i :: 0 <= i < |r| && r[i].id == a
    {
      var i :| 0 <= i < |ids| && ids[i] == a;
      assert r[i].id == a;
    }
  }

  /** The `limit` newest rows of `keep` rendered by `fromEntity`, newest
      first; no row left out is newer than one returned. */
  method RenderTop(db: Db, keep: set<Id>, limit: nat, hideCandidate: bool) returns (r: seq<ApplicationResponse>)
    requires keep <= db.applications.Keys
    ensures |r| == if |keep| <= limit then |keep| else limit
    ensures forall i :: 0 <= i < |r| ==> r[i].id in keep && r[i] == FromEntity(Load(db, r[i].id), hideCandidate)
    ensures forall i, j :: 0 <= i < j < |r| ==> r[i].id != r[j].id && r[i].createdAt >= r[j].createdAt
    ensures forall i, a :: 0 <= i < |r| && a in keep && (forall j :: 0 <= j < |r| ==> r[j].id != a) ==>
      db.applications[a].createdAt <= r[i].createdAt
  {
    var ids := Ordering.TopByKey(keep, CreatedAt(db), limit);
    r := [];
    for k := 0 to |ids|
      invariant |r| == k
      invariant forall i :: 0 <= i < k ==> r[i].id == ids[i] && r[i] == FromEntity(Load(db, ids[i]), hideCandidate)
    {
      r := r + [FromEntity(Load(db, ids[k]), hideCandidate)];
    }
    forall i, a | 0 <= i < |r| && a in keep && (forall j :: 0 <= j < |r| ==> r[j].id != a)
      ensures db.applications[a].createdAt <= r[i].createdAt
    {
      assert a !in ids;
    }
  }

  function CandidateRows(db: Db, user: Id): set<Id> {
    set a | a in db.applications && db.applications[a].candidate == user && AppHasDetails(db, a)
  }

  /** In a valid store the candidate's rows are the same whether they are
      selected by user id or, as `findByCandidateId` does, by profile id. */
  lemma CandidateRowsByProfile(db: Db, user: Id)
    requires Valid(db) && CandidateOf(db, user).Some?
    ensures CandidateRows(db, user) ==
      set a | a in db.applications && AppHasDetails(db, a) && ByCandidate(db, a, CandidateOf(db, user).value.id)
  {
    forall a | a in db.applications {
      ByCandidateIffUser(db, user, a);
    }
  }

  /** The enterprise lists filter on the enterprise profile id of the job. */
  function EnterpriseRows(db: Db, enterpriseId: Id): set<Id> {
    set a | a in db.applications && AppHasDetails(db, a)
      && EnterpriseOf(db, db.jobs[db.applications[a].job].enterprise).value.id == enterpriseId
  }

  /** `findByJobId` joins only the candidate and its user. */
  function JobRows(db: Db, job: Id): set<Id> {
    set a | a in db.applications && db.applications[a].job == job && CandidateOf(db, db.applications[a].candidate).Some?
  }

  function AllRows(db: Db): set<Id> {
    set a | a in db.applications && AppHasDetails(db, a)
  }

  /** `getCandidateApplications(userId)`: 404 without a candidate profile;
      the candidate sees their own applications unmasked. */
  method CandidateApplications(db: Db, user: Id) returns (r: Result<seq<ApplicationResponse>, Fault>)
    ensures r.Err? <==> CandidateOf(db, user).None?
    ensures r.Err? ==> r.error == CandidateNotFound
    ensures r.Ok? ==> Listing(db, CandidateRows(db, user), false, r.value)
    ensures r.Ok? ==> forall i :: 0 <= i < |r.value| ==>
      && r.value[i].id in db.applications && db.applications[r.value[i].id].candidate == user
      && ShowsCandidate(r.value[i], Load(db, r.value[i].id))
  {
    if CandidateOf(db, user).None? {
      return Err(CandidateNotFound);
    }
    var rows := Render(db, CandidateRows(db, user), false);
    return Ok(rows);
  }

  /** `getEnterpriseApplications(enterpriseId)`: masked for anonymous rows. */
  method EnterpriseApplications(db: Db, enterpriseId: Id) returns (r: seq<ApplicationResponse>)
    ensures Listing(db, EnterpriseRows(db, enterpriseId), true, r)
    ensures forall i :: 0 <= i < |r| ==>
      && r[i].id in EnterpriseRows(db, enterpriseId)
      && (db.applications[r[i].id].anonymous ==> HidesCandidate(r[i]))
      && (!db.applications[r[i].id].anonymous ==> ShowsCandidate(r[i], Load(db, r[i].id)))
  {
    r := Render(db, EnterpriseRows(db, enterpriseId), true);
  }

  /** `getJobApplications(jobId)`: masked for anonymous rows. */
  method JobApplications(db: Db, job: Id) returns (r: seq<ApplicationResponse>)
    ensures Listing(db, JobRows(db, job), true, r)
    ensures forall i :: 0 <= i < |r| ==>
      && r[i].id in JobRows(db, job)
      && (db.applications[r[i].id].anonymous ==> HidesCandidate(r[i]))
      && (!db.applications[r[i].id].anonymous ==> ShowsCandidate(r[i], Load(db, r[i].id)))
  {
    r := Render(db, JobRows(db, job), true);
  }

  /** `getAllApplications()`: the administrator sees every row unmasked. */
  method AllApplications(db: Db) returns (r: seq<ApplicationResponse>)
    ensures Listing(db, AllRows(db), false, r)
    ensures forall i :: 0 <= i < |r| ==> r[i].id in AllRows(db) && ShowsCandidate(r[i], Load(db, r[i].id))
  {
    r := Render(db, AllRows(db), false);
  }
}
