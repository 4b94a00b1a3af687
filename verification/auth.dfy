/** Registration and login.  Hashing and verifying passwords are
    parameters; issuing the token is left out. */
module Auth {
  import opened Wrappers
  import opened Model

  const EmailTaken := ApiError(400, "Email already registered")
  const BadCredentials := ApiError(401, "Invalid email or password")
  const DefaultDeactivation := "Your account has been deactivated. Please contact support for more information."
  const DefaultCompanyName := "Company Name"

  // ---------------------------------------------------------------------
  // Registration
  // ---------------------------------------------------------------------

  /** The body of a registration request; each profile field may be null. */
  datatype RegisterRequest = RegisterRequest(
    email: string,
    password: string,
    role: Role,
    firstName: Option<string>,
    lastName: Option<string>,
    skills: Option<string>,
    bio: Option<string>,
    phone: Option<string>,
    address: Option<string>,
    companyName: Option<string>,
    description: Option<string>,
    industry: Option<string>,
    location: Option<string>)

  /** `existsByEmail`. */
  predicate EmailRegistered(db: Db, email: string) {
    exists u :: u in db.users && db.users[u].email == email
  }

  /** The user `register` saves: active, no photo, and the profile of its
      role, if any. */
  function NewUser(req: RegisterRequest, hashed: string, profileId: Id, now: DateTime): (u: User)
    ensures u.email == req.email && u.password == hashed && u.role == req.role
    ensures u.active && u.deactivationReason == None && u.photoUrl == None
    ensures u.createdAt == now == u.updatedAt
    ensures u.candidate.Some? <==> req.role == Candidate
    ensures u.enterprise.Some? <==> req.role == Enterprise
    ensures u.candidate.Some? ==>
      (&& u.candidate.value.id == profileId
       && u.candidate.value.skills == Some(if req.skills.Some? then req.skills.value else "[]")
       && u.candidate.value.cvUrl == None)
    ensures u.enterprise.Some? ==>
      (&& u.enterprise.value.id == profileId
       && u.enterprise.value.companyName == (if req.companyName.Some? then req.companyName.value else DefaultCompanyName)
       && u.enterprise.value.logoUrl == None)
  {
    var candidate :=
      if req.role == Candidate then
        Some(CandidateProfile(profileId, req.firstName, req.lastName, Some(if req.skills.Some? then req.skills.value else "[]"),
                              req.bio, req.phone, req.address, None))
      else None;
    var enterprise :=
      if req.role == Enterprise then
        Some(EnterpriseProfile(profileId, if req.companyName.Some? then req.companyName.value else DefaultCompanyName,
                               req.description, req.industry, req.location, None))
      else None;
    User(req.email, hashed, req.role, None, true, None, now, now, candidate, enterprise)
  }

  /** `register(request)`: a taken email fails with 400 and stores nothing;
      otherwise exactly one user is added under the fresh id. */
  function Register(db: Db, hash: string -> string, req: RegisterRequest, id: Id, profileId: Id, now: DateTime): (r: Result<Db, Fault>)
    requires id !in db.users && ProfileIdUnused(db.users, profileId)
    ensures r.Err? <==> EmailRegistered(db, req.email)
    ensures r.Err? ==> r.error == EmailTaken
    ensures r.Ok? ==> r.value.(users := db.users) == db
    ensures r.Ok? ==> r.value.users == db.users[id := NewUser(req, hash(req.password), profileId, now)]
  {
    if EmailRegistered(db, req.email) then Err(EmailTaken)
    else Ok(db.(users := db.users[id := NewUser(req, hash(req.password), profileId, now)]))
  }

  /** Registration keeps the store invariant (emails in particular stay
      unique), and registering the same email again fails. */
  lemma RegisterValid(db: Db, hash: string -> string, req: RegisterRequest, id: Id, profileId: Id, now: DateTime,
                      id2: Id, profileId2: Id, later: DateTime)
    requires Valid(db) && id !in db.users && ProfileIdUnused(db.users, profileId)
    requires Register(db, hash, req, id, profileId, now).Ok?
    ensures Valid(Register(db, hash, req, id, profileId, now).value)
    ensures id2 != id && id2 !in db.users && ProfileIdUnused(Register(db, hash, req, id, profileId, now).value.users, profileId2) ==>
      Register(Register(db, hash, req, id, profileId, now).value, hash, req, id2, profileId2, later) == Err(EmailTaken)
  {
    var u := NewUser(req, hash(req.password), profileId, now);
    var db' := db.(users := db.users[id := u]);
    assert Register(db, hash, req, id, profileId, now).value == db';
    AddUserKeepsUnique(db.users, id, u);
    AddUserKeepsLinks(db.users, db.jobs, db.applications, db.notifications, id, u);
    assert EmailRegistered(db', req.email) by {
      assert db'.users[id].email == req.email;
    }
  }

  /** An administrator gets no profile at all. */
  lemma AdminHasNoProfile(req: RegisterRequest, hashed: string, profileId: Id, now: DateTime)
    requires req.role == Admin
    ensures NewUser(req, hashed, profileId, now).candidate == None && NewUser(req, hashed, profileId, now).enterprise == None
  {
  }

  // ---------------------------------------------------------------------
  // Login
  // ---------------------------------------------------------------------

  /** The message a deactivated account is refused with. */
  function DeactivatedMessage(reason: Option<string>): (m: string)
    ensures reason.Some? && reason.value != "" ==> m == "DEACTIVATED:" + reason.value
    ensures !(reason.Some? && reason.value != "") ==> m == "DEACTIVATED:" + DefaultDeactivation
  {
    "DEACTIVATED:" + if reason.Some? && reason.value != "" then reason.value else DefaultDeactivation
  }

  /** What the caller learns on success. */
  datatype Session = Session(userId: Id, email: string, role: Role)

  /** The decision `login` makes about the account found by email: the
      password first, then the active flag. */
  function Decide(id: Id, u: User, passwordOk: bool): (r: Result<Session, Fault>)
    ensures r.Ok? <==> passwordOk && u.active
    ensures !passwordOk ==> r == Err(BadCredentials)
    ensures passwordOk && !u.active ==> r == Err(ApiError(401, DeactivatedMessage(u.deactivationReason)))
    ensures r.Ok? ==> r.value == Session(id, u.email, u.role)
  {
    if !passwordOk then Err(BadCredentials)
    else if !u.active then Err(ApiError(401, DeactivatedMessage(u.deactivationReason)))
    else Ok(Session(id, u.email, u.role))
  }

  /** `login(email, password)`.  `verify(password, stored)` is the password
      check; the account is the one whose email matches. */
  method Login(db: Db, verify: (string, string) -> bool, email: string, password: string) returns (r: Result<Session, Fault>)
    ensures !EmailRegistered(db, email) ==> r == Err(BadCredentials)
    ensures EmailRegistered(db, email) ==>
      exists u :: u in db.users && db.users[u].email == email && r == Decide(u, db.users[u], verify(password, db.users[u].password))
    ensures r.Ok? ==>
      (&& r.value.userId in db.users && db.users[r.value.userId].email == email
       && db.users[r.value.userId].active && verify(password, db.users[r.value.userId].password))
  {
    if !EmailRegistered(db, email) {
      return Err(BadCredentials);
    }
    var u :| u in db.users && db.users[u].email == email;
    r := Decide(u, db.users[u], verify(password, db.users[u].password));
  }

  /** With unique emails the outcome is determined: an unknown email and a
      wrong password are indistinguishable, a deactivated account is
      reported only to a caller who knows the password, and success needs
      an active account with a verified password. */
  lemma LoginDecisionOrder(db: Db, verify: (string, string) -> bool, email: string, password: string, r: Result<Session, Fault>, u: Id)
    requires UniqueEmails(db.users)
    requires u in db.users && db.users[u].email == email
    requires exists v :: v in db.users && db.users[v].email == email && r == Decide(v, db.users[v], verify(password, db.users[v].password))
    ensures !verify(password, db.users[u].password) ==> r == Err(BadCredentials)
    ensures verify(password, db.users[u].password) && !db.users[u].active ==>
      r == Err(ApiError(401, DeactivatedMessage(db.users[u].deactivationReason)))
    ensures r.Ok? <==> verify(password, db.users[u].password) && db.users[u].active
  {
    var v :| v in db.users && db.users[v].email == email && r == Decide(v, db.users[v], verify(password, db.users[v].password));
    assert v == u;
  }
}
