/** The authentication filter in front of the secured resources: the bearer
    header, token validation and the role check.  Validating a token is a
    parameter. */
module Gate {
  import opened Wrappers
  import opened Text
  import opened Model

  const BearerPrefix := "Bearer "
  const MissingHeader := ApiError(401, "Missing or invalid Authorization header")
  const BadToken := ApiError(401, "Invalid or expired token")
  const AccessDenied := ApiError(403, "Access denied")

  /** The claims of a valid token; `email` and `role` may be absent. */
  datatype Claims = Claims(subject: string, email: Option<string>, role: Option<string>)

  /** `UserPrincipal(userId, email, role)`. */
  datatype Principal = Principal(userId: string, email: Option<string>, role: Option<string>)

  /** `getAllowedRoles`: the method's `@RolesAllowed` values, or the class's
      when the method gives none. */
  function AllowedRoles(methodRoles: set<string>, classRoles: set<string>): (r: set<string>)
    ensures methodRoles != {} ==> r == methodRoles
    ensures methodRoles == {} ==> r == classRoles
  {
    if methodRoles != {} then methodRoles else classRoles
  }

  /** The token is the header with the seven-character prefix removed. */
  function TokenOf(header: string): (t: string)
    requires StartsWith(header, BearerPrefix)
    ensures BearerPrefix + t == header
  {
    header[|BearerPrefix|..]
  }

  /** `filter(request)`: the principal the request runs as, or the response
      it is aborted with.  `validate` returns the claims of a valid token. */
  function Filter(header: Option<string>, validate: string -> Option<Claims>, methodRoles: set<string>, classRoles: set<string>)
    : (r: Result<Principal, Fault>)
    ensures header.None? || !StartsWith(header.value, BearerPrefix) ==> r == Err(MissingHeader)
    ensures header.Some? && StartsWith(header.value, BearerPrefix) ==>
      var claims := validate(TokenOf(header.value));
      && (claims.None? ==> r == Err(BadToken))
      && (claims.Some? ==>
            var allowed := AllowedRoles(methodRoles, classRoles);
            if allowed != {} && (claims.value.role.None? || claims.value.role.value !in allowed) then r == Err(AccessDenied)
            else r == Ok(Principal(claims.value.subject, claims.value.email, claims.value.role)))
  {
    if header.None? || !StartsWith(header.value, BearerPrefix) then Err(MissingHeader)
    else
      match validate(TokenOf(header.value))
      case None => Err(BadToken)
      case Some(c) =>
        var allowed := AllowedRoles(methodRoles, classRoles);
        if allowed != {} && (c.role.None? || c.role.value !in allowed) then Err(AccessDenied)
        else Ok(Principal(c.subject, c.email, c.role))
  }

  /** A request is admitted exactly when it carries a bearer token that
      validates and whose role is allowed, an empty allowed set admitting
      every role; an admitted request runs as the token's subject. */
  lemma FilterAdmits(header: Option<string>, validate: string -> Option<Claims>, methodRoles: set<string>, classRoles: set<string>)
    ensures var r := Filter(header, validate, methodRoles, classRoles);
      r.Ok? <==>
        && header.Some? && StartsWith(header.value, BearerPrefix)
        && validate(TokenOf(header.value)).Some?
        && (AllowedRoles(methodRoles, classRoles) == {}
            || (validate(TokenOf(header.value)).value.role.Some?
                && validate(TokenOf(header.value)).value.role.value in AllowedRoles(methodRoles, classRoles)))
    ensures var r := Filter(header, validate, methodRoles, classRoles);
      r.Ok? ==> r.value.userId == validate(TokenOf(header.value)).value.subject
  {
  }

  /** An invalid token is refused with 401 whatever roles the resource
      allows: validity is decided before the role check. */
  lemma BadTokenBeforeRoles(token: string, validate: string -> Option<Claims>, methodRoles: set<string>, classRoles: set<string>)
    requires validate(token).None?
    ensures Filter(Some(BearerPrefix + token), validate, methodRoles, classRoles) == Err(BadToken)
  {
    assert StartsWith(BearerPrefix + token, BearerPrefix) by {
      assert (BearerPrefix + token)[..|BearerPrefix|] == BearerPrefix;
    }
    assert TokenOf(BearerPrefix + token) == token;
  }

  /** A lower-case scheme is not accepted. */
  lemma SchemeIsCaseSensitive(validate: string -> Option<Claims>, methodRoles: set<string>, classRoles: set<string>)
    ensures Filter(Some("bearer abc"), validate, methodRoles, classRoles) == Err(MissingHeader)
  {
    assert "bearer abc"[0] != BearerPrefix[0];
  }
}
