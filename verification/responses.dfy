/** The application response and its masking: what an enterprise sees of an
    anonymous applicant. */
module Responses {
  import opened Wrappers
  import opened Model

  /** The address shown in place of a hidden candidate's email. */
  const HiddenEmail: string := "anonymous@candidate.hidden"

  /** `InterviewResponse.fromEntity(interview, jobTitle, companyName)`. */
  datatype InterviewResponse = InterviewResponse(
    id: Id,
    date: DateTime,
    meetingLink: string,
    status: InterviewStatus,
    createdAt: DateTime,
    jobTitle: Option<string>,
    companyName: Option<string>)

  datatype ApplicationResponse = ApplicationResponse(
    id: Id,
    status: ApplicationStatus,
    score: nat,
    anonymous: bool,
    createdAt: DateTime,
    updatedAt: DateTime,
    candidateId: Option<Id>,
    candidateEmail: Option<string>,
    candidateFirstName: Option<string>,
    candidateLastName: Option<string>,
    candidateBio: Option<string>,
    candidatePhone: Option<string>,
    candidateCvUrl: Option<string>,
    candidateSkills: Option<string>,
    candidatePhotoUrl: Option<string>,
    jobId: Option<Id>,
    jobTitle: Option<string>,
    jobLocation: Option<string>,
    companyName: Option<string>,
    interview: Option<InterviewResponse>)

  /** An application with the associations loaded alongside it; a reference
      that is null, or was not fetched, is `None`. */
  datatype ApplicationView = ApplicationView(
    id: Id,
    app: Application,
    candidate: Option<CandidateProfile>,
    candidateUser: Option<User>,
    jobId: Id,
    job: Option<JobOffer>,
    enterprise: Option<EnterpriseProfile>,
    interview: Option<Interview>)

  /** Whether `fromEntity` hides the candidate. */
  predicate Masked(v: ApplicationView, hideCandidate: bool) {
    hideCandidate && v.app.anonymous
  }

  /** The candidate columns of a response as they are when nothing is hidden. */
  predicate ShowsCandidate(r: ApplicationResponse, v: ApplicationView)
    requires v.candidate.Some?
  {
    && r.candidateEmail == (if v.candidateUser.Some? then Some(v.candidateUser.value.email) else None)
    && r.candidatePhotoUrl == (if v.candidateUser.Some? then v.candidateUser.value.photoUrl else None)
    && r.candidateFirstName == v.candidate.value.firstName
    && r.candidateLastName == v.candidate.value.lastName
    && r.candidateBio == v.candidate.value.bio
    && r.candidatePhone == v.candidate.value.phone
    && r.candidateCvUrl == v.candidate.value.cvUrl
    && r.candidateSkills == v.candidate.value.skills
  }

  /** The candidate columns of a response with all personal data withheld. */
  predicate HidesCandidate(r: ApplicationResponse) {
    && r.candidateEmail == Some(HiddenEmail)
    && r.candidateFirstName == None && r.candidateLastName == None
    && r.candidateBio == None && r.candidatePhone == None
    && r.candidateCvUrl == None && r.candidateSkills == None
    && r.candidatePhotoUrl == None
  }

  /** No candidate column is filled. */
  predicate NoCandidate(r: ApplicationResponse) {
    && r.candidateId == None && r.candidateEmail == None
    && r.candidateFirstName == None && r.candidateLastName == None
    && r.candidateBio == None && r.candidatePhone == None
    && r.candidateCvUrl == None && r.candidateSkills == None
    && r.candidatePhotoUrl == None
  }

  function CandidateId(v: ApplicationView): Option<Id> {
    if v.candidate.Some? then Some(v.candidate.value.id) else None
  }

  function JobTitle(v: ApplicationView): Option<string> {
    if v.job.Some? then Some(v.job.value.title) else None
  }

  function CompanyName(v: ApplicationView): Option<string> {
    if v.job.Some? && v.enterprise.Some? then Some(v.enterprise.value.companyName) else None
  }

  /** `InterviewResponse.fromEntity(interview, jobTitle, companyName)`. */
  function InterviewFromEntity(i: Interview, jobTitle: Option<string>, companyName: Option<string>): InterviewResponse {
    InterviewResponse(i.id, i.date, i.meetingLink, i.status, i.createdAt, jobTitle, companyName)
  }

  /** `ApplicationResponse.fromEntity(app, hideCandidate)`. */
  function FromEntity(v: ApplicationView, hideCandidate: bool): (r: ApplicationResponse)
    ensures r.id == v.id && r.status == v.app.status && r.score == v.app.score && r.anonymous == v.app.anonymous
    ensures r.createdAt == v.app.createdAt && r.updatedAt == v.app.updatedAt
    ensures r.candidateId == CandidateId(v)
    ensures v.candidate.None? ==> NoCandidate(r)
    ensures v.candidate.Some? && Masked(v, hideCandidate) ==> HidesCandidate(r)
    ensures v.candidate.Some? && !Masked(v, hideCandidate) ==> ShowsCandidate(r, v)
    ensures r.jobId == (if v.job.Some? then Some(v.jobId) else None)
    ensures r.jobTitle == JobTitle(v)
    ensures r.jobLocation == (if v.job.Some? then Some(v.job.value.location) else None)
    ensures r.companyName == CompanyName(v)
    ensures r.interview.Some? <==> v.interview.Some?
    ensures v.interview.Some? ==> r.interview == Some(InterviewFromEntity(v.interview.value, JobTitle(v), CompanyName(v)))
  {
    var masked := Masked(v, hideCandidate);
    var user := v.candidateUser;
    var c := v.candidate;
    ApplicationResponse(
      v.id, v.app.status, v.app.score, v.app.anonymous, v.app.createdAt, v.app.updatedAt,
      CandidateId(v),
      if c.None? then None else if masked then Some(HiddenEmail) else if user.Some? then Some(user.value.email) else None,
      if c.None? || masked then None else c.value.firstName,
      if c.None? || masked then None else c.value.lastName,
      if c.None? || masked then None else c.value.bio,
      if c.None? || masked then None else c.value.phone,
      if c.None? || masked then None else c.value.cvUrl,
      if c.None? || masked then None else c.value.skills,
      if c.None? || masked || user.None? then None else user.value.photoUrl,
      if v.job.Some? then Some(v.jobId) else None,
      JobTitle(v),
      if v.job.Some? then Some(v.job.value.location) else None,
      CompanyName(v),
      if v.interview.Some? then Some(InterviewFromEntity(v.interview.value, JobTitle(v), CompanyName(v))) else None)
  }

  /** Everything that is not candidate data reads the same with and without
      masking, the candidate id included. */
  lemma MaskingKeepsTheRest(v: ApplicationView)
    ensures var a, b := FromEntity(v, true), FromEntity(v, false);
      a.(candidateEmail := None, candidateFirstName := None, candidateLastName := None, candidateBio := None,
         candidatePhone := None, candidateCvUrl := None, candidateSkills := None, candidatePhotoUrl := None)
      == b.(candidateEmail := None, candidateFirstName := None, candidateLastName := None, candidateBio := None,
            candidatePhone := None, candidateCvUrl := None, candidateSkills := None, candidatePhotoUrl := None)
  {
  }

  /** Masking is asked for only by the enterprise-facing lists and only takes
      effect for an anonymous application: otherwise the flag is irrelevant. */
  lemma MaskingNeedsAnonymity(v: ApplicationView)
    ensures !v.app.anonymous ==> FromEntity(v, true) == FromEntity(v, false)
  {
  }

  /** A masked response reveals nothing about the candidate beyond the
      profile id: two applicants with the same profile id whose personal data
      differ in every way produce the same masked response. */
  lemma MaskedRevealsNothing(v: ApplicationView, w: ApplicationView)
    requires v.app.anonymous
    requires w == v.(candidate := w.candidate, candidateUser := w.candidateUser)
    requires v.candidate.Some? && w.candidate.Some? && v.candidate.value.id == w.candidate.value.id
    ensures FromEntity(v, true) == FromEntity(w, true)
  {
  }

  /** Unmasked, the response distinguishes applicants whose emails differ. */
  lemma UnmaskedShowsEmail(v: ApplicationView, w: ApplicationView, hideCandidate: bool)
    requires !Masked(v, hideCandidate) && !Masked(w, hideCandidate)
    requires v.candidate.Some? && v.candidateUser.Some? && w.candidate.Some? && w.candidateUser.Some?
    requires v.candidateUser.value.email != w.candidateUser.value.email
    ensures FromEntity(v, hideCandidate) != FromEntity(w, hideCandidate)
  {
    assert FromEntity(v, hideCandidate).candidateEmail != FromEntity(w, hideCandidate).candidateEmail;
  }

  /** The associations of application `a` as the fetch joins load them. */
  function Load(db: Db, a: Id): (v: ApplicationView)
    requires a in db.applications
    ensures v.id == a && v.app == db.applications[a] && v.jobId == v.app.job
    ensures v.candidate == CandidateOf(db, v.app.candidate)
    ensures v.interview.Some? <==> a in db.interviews
    ensures Valid(db) ==> v.candidate.Some? && v.candidateUser.Some? && v.job.Some? && v.enterprise.Some?
  {
    var app := db.applications[a];
    var candidate := CandidateOf(db, app.candidate);
    var job := if app.job in db.jobs then Some(db.jobs[app.job]) else None;
    ApplicationView(
      a, app, candidate,
      if candidate.Some? then Some(db.users[app.candidate]) else None,
      app.job, job,
      if job.Some? then EnterpriseOf(db, job.value.enterprise) else None,
      if a in db.interviews then Some(db.interviews[a]) else None)
  }
}
