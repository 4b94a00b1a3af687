/** The interview service: scheduling (create or replace, keyed by the
    application), the status update, and the upcoming interviews of a
    candidate. */
module Interviews {
  import opened Wrappers
  import opened Model
  import opened Notifications
  import opened Responses
  import opened Applications
  import Ordering

  const InterviewNotFound := ApiError(404, "Interview not found")

  function ScheduleMessage(title: string): string {
    "Interview scheduled for \"" + title + "\"! Check your applications for the meeting link."
  }

  /** No stored interview carries the id `id`. */
  predicate FreshInterviewId(db: Db, id: Id) {
    forall k :: k in db.interviews ==> db.interviews[k].id != id
  }

  /** The interview row of application `app` after scheduling: the existing
      one with date, link and status overwritten, or a new one. */
  function Rescheduled(db: Db, app: Id, date: DateTime, link: string, newId: Id, now: DateTime): (i: Interview)
    ensures i.date == date && i.meetingLink == link && i.status == Scheduled
    ensures app in db.interviews ==> i.id == db.interviews[app].id && i.createdAt == db.interviews[app].createdAt
    ensures app !in db.interviews ==> i == NewInterview(newId, date, link, now)
  {
    if app in db.interviews then
      var cur := db.interviews[app];
      TouchInterview(cur, cur.(date := date, meetingLink := link, status := Scheduled), now)
    else NewInterview(newId, date, link, now)
  }

  /** What a successful `scheduleInterview` did: the application's interview
      is set, the application is INTERVIEW_SCHEDULED, the candidate's user is
      told; nothing else changed. */
  predicate ScheduledEffect(db: Db, db': Db, app: Id, date: DateTime, link: string, newId: Id, noteId: Id, now: DateTime)
    requires AppHasDetails(db, app)
  {
    var a := db.applications[app];
    && db'.users == db.users && db'.jobs == db.jobs
    && db'.interviews.Keys == db.interviews.Keys + {app}
    && (forall k :: k in db.interviews && k != app ==> db'.interviews[k] == db.interviews[k])
    && db'.interviews[app] == Rescheduled(db, app, date, link, newId, now)
    && db'.applications.Keys == db.applications.Keys
    && (forall k :: k in db.applications && k != app ==> db'.applications[k] == db.applications[k])
    && db'.applications[app] == TouchApplication(a, a.(status := InterviewScheduled), now)
    && AddsOne(db.notifications, db'.notifications, noteId,
               Notification(a.candidate, ScheduleMessage(db.jobs[a.job].title), false, now))
  }

  /** `scheduleInterview(applicationId, date, meetingLink)`, with `parse` the
      ISO date-time parser, `newId` the id a new interview would get and
      `noteId` the notification's id. */
  function ScheduleInterview(db: Db, parse: string -> Option<DateTime>, app: Id, dateText: string, link: string,
                             newId: Id, noteId: Id, now: DateTime): (r: Result<Db, Fault>)
    requires noteId !in db.notifications && FreshInterviewId(db, newId)
    ensures !AppHasDetails(db, app) ==> r == Err(ApplicationNotFound)
    ensures AppHasDetails(db, app) && parse(dateText).None? ==> r == Err(MalformedDate(dateText))
    ensures r.Ok? <==> AppHasDetails(db, app) && parse(dateText).Some?
    ensures r.Ok? ==> ScheduledEffect(db, r.value, app, parse(dateText).value, link, newId, noteId, now)
  {
    if !AppHasDetails(db, app) then Err(ApplicationNotFound)
    else match parse(dateText)
      case None => Err(MalformedDate(dateText))
      case Some(date) =>
        var a := db.applications[app];
        var db1 := db.(
          interviews := db.interviews[app := Rescheduled(db, app, date, link, newId, now)],
          applications := db.applications[app := TouchApplication(a, a.(status := InterviewScheduled), now)]);
        CreateNotification(db1, a.candidate, ScheduleMessage(db.jobs[a.job].title), noteId, now)
  }

  /** Rescheduling keeps the number of interviews; a first scheduling adds
      exactly one. */
  lemma ScheduleCount(db: Db, parse: string -> Option<DateTime>, app: Id, dateText: string, link: string,
                      newId: Id, noteId: Id, now: DateTime)
    requires noteId !in db.notifications && FreshInterviewId(db, newId)
    requires ScheduleInterview(db, parse, app, dateText, link, newId, noteId, now).Ok?
    ensures var db' := ScheduleInterview(db, parse, app, dateText, link, newId, noteId, now).value;
      |db'.interviews| == |db.interviews| + (if app in db.interviews then 0 else 1)
  {
    var db' := ScheduleInterview(db, parse, app, dateText, link, newId, noteId, now).value;
    assert |db'.interviews| == |db'.interviews.Keys|;
    assert |db.interviews| == |db.interviews.Keys|;
    if app in db.interviews {
      assert db'.interviews.Keys == db.interviews.Keys;
    }
  }

  /** Scheduling the same interview twice leaves the interview and the
      application exactly as the first call left them; only a second
      notification is added. */
  lemma ScheduleIdempotent(db: Db, parse: string -> Option<DateTime>, app: Id, dateText: string, link: string,
                           newId: Id, noteId: Id, now: DateTime, newId2: Id, noteId2: Id, later: DateTime)
    requires noteId !in db.notifications && FreshInterviewId(db, newId)
    requires ScheduleInterview(db, parse, app, dateText, link, newId, noteId, now).Ok?
    requires var db1 := ScheduleInterview(db, parse, app, dateText, link, newId, noteId, now).value;
      noteId2 !in db1.notifications && FreshInterviewId(db1, newId2)
    ensures var db1 := ScheduleInterview(db, parse, app, dateText, link, newId, noteId, now).value;
      var db2 := ScheduleInterview(db1, parse, app, dateText, link, newId2, noteId2, later);
      && db2.Ok?
      && db2.value.interviews == db1.interviews
      && db2.value.applications == db1.applications
      && db2.value.users == db1.users && db2.value.jobs == db1.jobs
      && |db2.value.notifications| == |db1.notifications| + 1
  {
    var db1 := ScheduleInterview(db, parse, app, dateText, link, newId, noteId, now).value;
    assert ScheduledEffect(db, db1, app, parse(dateText).value, link, newId, noteId, now);
    RescheduleSameIsNoop(db1, parse, app, dateText, link, newId2, noteId2, later);
  }

  /** Scheduling an interview that is already scheduled at that date and
      link, for an application already INTERVIEW_SCHEDULED, only notifies. */
  lemma RescheduleSameIsNoop(db: Db, parse: string -> Option<DateTime>, app: Id, dateText: string, link: string,
                             newId: Id, noteId: Id, now: DateTime)
    requires noteId !in db.notifications && FreshInterviewId(db, newId)
    requires AppHasDetails(db, app) && parse(dateText).Some? && app in db.interviews
    requires db.interviews[app].date == parse(dateText).value && db.interviews[app].meetingLink == link
    requires db.interviews[app].status == Scheduled && db.applications[app].status == InterviewScheduled
    ensures var r := ScheduleInterview(db, parse, app, dateText, link, newId, noteId, now);
      && r.Ok?
      && r.value.interviews == db.interviews && r.value.applications == db.applications
      && r.value.users == db.users && r.value.jobs == db.jobs
      && |r.value.notifications| == |db.notifications| + 1
  {
    var i, a := db.interviews[app], db.applications[app];
    assert Rescheduled(db, app, parse(dateText).value, link, newId, now) == i;
    assert db.interviews[app := i] == db.interviews;
    assert db.applications[app := a] == db.applications;
    var db' := ScheduleInterview(db, parse, app, dateText, link, newId, noteId, now).value;
    assert db'.notifications.Keys == db.notifications.Keys + {noteId};
  }

  /** Setting the interview of an existing application keeps the store
      invariant as long as no other interview has the same id. */
  lemma SetInterviewKeepsValid(db: Db, app: Id, i: Interview)
    requires Valid(db) && app in db.applications
    requires forall k :: k in db.interviews && k != app ==> db.interviews[k].id != i.id
    ensures Valid(db.(interviews := db.interviews[app := i]))
  {
    var db' := db.(interviews := db.interviews[app := i]);
    forall k, l | k in db'.interviews && l in db'.interviews && k != l
      ensures db'.interviews[k].id != db'.interviews[l].id
    {
      if k == app || l == app {
        var other := if k == app then l else k;
        assert db'.interviews[other] == db.interviews[other];
      }
    }
    assert UniqueInterviewIds(db'.interviews);
  }

  /** The two writes of a scheduling, before the notification, keep the
      store invariant. */
  lemma ScheduleWritesKeepValid(db: Db, app: Id, a': Application, i: Interview)
    requires Valid(db) && app in db.applications
    requires a'.candidate == db.applications[app].candidate && a'.job == db.applications[app].job
    requires a'.score == db.applications[app].score
    requires forall k :: k in db.interviews && k != app ==> db.interviews[k].id != i.id
    ensures Valid(db.(interviews := db.interviews[app := i], applications := db.applications[app := a']))
  {
    RewriteKeepsValid(db, app, a');
    var db0 := db.(applications := db.applications[app := a']);
    SetInterviewKeepsValid(db0, app, i);
    assert db.(interviews := db.interviews[app := i], applications := db.applications[app := a'])
        == db0.(interviews := db0.interviews[app := i]);
  }

  /** Scheduling keeps the store invariant. */
  lemma ScheduleValid(db: Db, parse: string -> Option<DateTime>, app: Id, dateText: string, link: string,
                      newId: Id, noteId: Id, now: DateTime)
    requires noteId !in db.notifications && FreshInterviewId(db, newId) && Valid(db)
    requires ScheduleInterview(db, parse, app, dateText, link, newId, noteId, now).Ok?
    ensures Valid(ScheduleInterview(db, parse, app, dateText, link, newId, noteId, now).value)
  {
    var a := db.applications[app];
    var date := parse(dateText).value;
    var a' := TouchApplication(a, a.(status := InterviewScheduled), now);
    var i := Rescheduled(db, app, date, link, newId, now);
    forall k | k in db.interviews && k != app
      ensures db.interviews[k].id != i.id
    {
      if app in db.interviews {
        assert UniqueInterviewIds(db.interviews);
      }
    }
    ScheduleWritesKeepValid(db, app, a', i);
    var db1 := db.(interviews := db.interviews[app := i], applications := db.applications[app := a']);
    assert ScheduleInterview(db, parse, app, dateText, link, newId, noteId, now)
        == CreateNotification(db1, a.candidate, ScheduleMessage(db.jobs[a.job].title), noteId, now);
    CreateNotificationValid(db1, a.candidate, ScheduleMessage(db.jobs[a.job].title), noteId, now);
  }

  /** Some stored interview has the id `id`. */
  predicate HasInterview(db: Db, id: Id) {
    exists k :: k in db.interviews && db.interviews[k].id == id
  }

  /** `updateStatus(interviewId, status)`: 404 for an unknown interview;
      otherwise only that interview's status is written. */
  function UpdateInterviewStatus(db: Db, id: Id, status: InterviewStatus, now: DateTime): (r: Result<Db, Fault>)
    ensures r.Err? <==> !HasInterview(db, id)
    ensures r.Err? ==> r.error == InterviewNotFound
    ensures r.Ok? ==> r.value.(interviews := db.interviews) == db
    ensures r.Ok? ==> r.value.interviews.Keys == db.interviews.Keys
    ensures r.Ok? ==> forall k :: k in db.interviews ==>
      r.value.interviews[k] == if db.interviews[k].id == id
                               then TouchInterview(db.interviews[k], db.interviews[k].(status := status), now)
                               else db.interviews[k]
  {
    if !HasInterview(db, id) then Err(InterviewNotFound)
    else Ok(db.(interviews := map k | k in db.interviews ::
      if db.interviews[k].id == id
      then TouchInterview(db.interviews[k], db.interviews[k].(status := status), now)
      else db.interviews[k]))
  }

  /** In a valid store exactly one interview changes: the one with that id,
      whose status becomes `status`; date, link and owner stay. */
  lemma UpdateInterviewStatusTouchesOne(db: Db, id: Id, status: InterviewStatus, now: DateTime, k: Id, l: Id)
    requires Valid(db) && UpdateInterviewStatus(db, id, status, now).Ok?
    requires k in db.interviews && db.interviews[k].id == id && l in db.interviews
    ensures var i' := UpdateInterviewStatus(db, id, status, now).value.interviews;
      && i'[k].status == status && i'[k].date == db.interviews[k].date && i'[k].meetingLink == db.interviews[k].meetingLink
      && (l != k ==> i'[l] == db.interviews[l])
  {
  }

  /** Rewriting interviews in place, ids unchanged, keeps the store invariant. */
  lemma RetagKeepsValid(db: Db, interviews: map<Id, Interview>)
    requires Valid(db) && interviews.Keys == db.interviews.Keys
    requires forall k :: k in interviews ==> interviews[k].id == db.interviews[k].id
    ensures Valid(db.(interviews := interviews))
  {
    assert UniqueInterviewIds(interviews);
  }

  /** Changing an interview's status keeps the store invariant. */
  lemma UpdateInterviewStatusValid(db: Db, id: Id, status: InterviewStatus, now: DateTime)
    requires Valid(db) && UpdateInterviewStatus(db, id, status, now).Ok?
    ensures Valid(UpdateInterviewStatus(db, id, status, now).value)
  {
    var db' := UpdateInterviewStatus(db, id, status, now).value;
    assert db' == db.(interviews := db'.interviews);
    RetagKeepsValid(db, db'.interviews);
  }

  /** The interviews `findUpcomingByCandidateId` selects: the candidate's,
      still SCHEDULED, not before `now`, with the job's enterprise joined. */
  function UpcomingRows(db: Db, user: Id, now: DateTime): set<Id> {
    set k | k in db.interviews && k in db.applications
      && db.applications[k].candidate == user
      && db.interviews[k].date >= now
      && db.interviews[k].status == Scheduled
      && JobHasEnterprise(db, db.applications[k].job)
  }

  /** In a valid store the candidate's upcoming rows are the same whether
      they are selected by user id or, as the query does, by profile id. */
  lemma UpcomingRowsByProfile(db: Db, user: Id, now: DateTime)
    requires Valid(db) && CandidateOf(db, user).Some?
    ensures UpcomingRows(db, user, now) ==
      set k | k in db.interviews && k in db.applications
        && ByCandidate(db, k, CandidateOf(db, user).value.id)
        && db.interviews[k].date >= now
        && db.interviews[k].status == Scheduled
        && JobHasEnterprise(db, db.applications[k].job)
  {
    forall k | k in db.applications {
      ByCandidateIffUser(db, user, k);
    }
  }

  /** The order key of `ORDER BY i.date ASC`, as a descending key. */
  function LaterFirst(db: Db): Id -> int {
    k => if k in db.interviews then -db.interviews[k].date else 0
  }

  /** The interview responses of `ids`, in order, without job details. */
  method RenderInterviews(db: Db, ids: seq<Id>) returns (r: seq<InterviewResponse>)
    requires forall i :: 0 <= i < |ids| ==> ids[i] in db.interviews
    ensures |r| == |ids|
    ensures forall i :: 0 <= i < |r| ==> r[i] == InterviewFromEntity(db.interviews[ids[i]], None, None)
  {
    r := [];
    for n := 0 to |ids|
      invariant |r| == n
      invariant forall i :: 0 <= i < n ==> r[i] == InterviewFromEntity(db.interviews[ids[i]], None, None)
    {
      r := r + [InterviewFromEntity(db.interviews[ids[n]], None, None)];
    }
  }

  /** `r` renders the interviews stored under the distinct keys `ks`, each
      one selected by `rows`; no selected row left out is sooner than one
      rendered. */
  predicate RendersSoonest(db: Db, rows: set<Id>, ks: seq<Id>, r: seq<InterviewResponse>) {
    && rows <= db.interviews.Keys
    && |ks| == |r| && Ordering.Distinct(ks)
    && (forall i :: 0 <= i < |ks| ==> ks[i] in rows && r[i] == InterviewFromEntity(db.interviews[ks[i]], None, None))
    && (forall i, k :: 0 <= i < |ks| && k in rows && k !in ks ==> db.interviews[k].date >= db.interviews[ks[i]].date)
  }

  /** `getUpcomingInterviews(candidate, limit)`: at most `limit` of the
      candidate's scheduled future interviews, soonest first; none left out
      is sooner than one returned. */
  method UpcomingInterviews(db: Db, user: Id, now: DateTime, limit: nat) returns (r: seq<InterviewResponse>)
    ensures |r| == if |UpcomingRows(db, user, now)| <= limit then |UpcomingRows(db, user, now)| else limit
    ensures forall i :: 0 <= i < |r| ==> exists k :: k in UpcomingRows(db, user, now) && r[i] == InterviewFromEntity(db.interviews[k], None, None)
    ensures forall i :: 0 <= i < |r| ==> r[i].date >= now && r[i].status == Scheduled
    ensures forall i, j :: 0 <= i < j < |r| ==> r[i].date <= r[j].date
    ensures forall i, k :: 0 <= i < |r| && k in UpcomingRows(db, user, now) && (forall j :: 0 <= j < |r| ==> r[j].id != db.interviews[k].id) ==>
      db.interviews[k].date >= r[i].date
    ensures exists ks :: RendersSoonest(db, UpcomingRows(db, user, now), ks, r)
  {
    var rows := UpcomingRows(db, user, now);
    var ids := Ordering.TopByKey(rows, LaterFirst(db), limit);
    assert forall i :: 0 <= i < |ids| ==> ids[i] in rows && ids[i] in db.interviews;
    r := RenderInterviews(db, ids);
    assert RendersSoonest(db, rows, ids, r);
    forall i, k | 0 <= i < |r| && k in rows && (forall j :: 0 <= j < |r| ==> r[j].id != db.interviews[k].id)
      ensures db.interviews[k].date >= r[i].date
    {
      assert k !in ids;
    }
  }
}
