/** The protected `GET /booking` handler behind the API's Cognito
    authorizer: it answers 403 unless the caller's `permissions` claim is a
    non-empty string that contains `booking:read` as a substring, and
    otherwise returns a fixed sample booking.

    The timestamp in the booking (`new Date().toISOString()`) is the
    parameter `now`. */
module GetBooking {
  import opened Wrappers
  import opened Strings
  import opened TokenClaims

  /** The part of `APIGatewayProxyEvent` the handler reads:
      `requestContext.authorizer?.claims`. */
  datatype Authorizer = Authorizer(claims: Option<Claims>)
  datatype RequestContext = RequestContext(authorizer: Option<Authorizer>)
  datatype ProxyEvent = ProxyEvent(requestContext: RequestContext)

  /** The JSON bodies the handler serialises, field by field. */
  datatype Body =
    | Message(message: string)
    | Booking(id: string, date: string, name: string)

  datatype ProxyResult = ProxyResult(statusCode: int, body: Body)

  const RequiredPermission := "booking:read"
  const Forbidden := ProxyResult(403, Message("Forbidden"))

  /** `event.requestContext.authorizer?.claims`. */
  function AuthorizerClaims(event: ProxyEvent): Option<Claims> {
    var authorizer := event.requestContext.authorizer;
    if authorizer.Some? then authorizer.value.claims else None
  }

  /** `claims?.permissions`. */
  function PermissionsOf(claims: Option<Claims>): Option<string> {
    if claims.Some? && PermissionsClaim in claims.value then Some(claims.value[PermissionsClaim]) else None
  }

  /** JavaScript `Boolean` of an optional string: present and non-empty. */
  predicate Truthy(v: Option<string>) {
    v.Some? && v.value != ""
  }

  /** The handler. The status is 200 or 403 and depends on the claims alone;
      it is 200 exactly when the `permissions` claim contains
      `booking:read` as a substring (the separate non-empty test never
      decides, because an empty string contains no non-empty needle); a 403
      always carries the `Forbidden` message and a 200 the sample booking. */
  function Handler(event: ProxyEvent, now: string): (r: ProxyResult)
    ensures r.statusCode == 200 || r.statusCode == 403
    ensures r.statusCode == 200 <==>
              PermissionsOf(AuthorizerClaims(event)).Some? &&
              Contains(PermissionsOf(AuthorizerClaims(event)).value, RequiredPermission)
    ensures r.statusCode == 403 ==> r.body == Message("Forbidden")
    ensures r.statusCode == 200 ==> r.body == Booking("456", now, "Hotel California")
  {
    var permissions := PermissionsOf(AuthorizerClaims(event));
    if !Truthy(permissions) || !Contains(permissions.value, RequiredPermission) then
      Forbidden
    else
      ProxyResult(200, Booking("456", now, "Hotel California"))
  }

  /** Each way of lacking the permission is refused: no authorizer, no
      claims, no `permissions` claim, or an empty one. */
  lemma MissingPermissionsForbidden(event: ProxyEvent, now: string)
    requires !Truthy(PermissionsOf(AuthorizerClaims(event)))
    ensures Handler(event, now) == Forbidden
  {
  }

  /** The test is substring containment, not membership in the comma
      list: a comma-free claim that contains `booking:read` but is not
      exactly it is admitted, although `booking:read` is not one of its
      comma-separated entries. */
  lemma UnlistedSuperstringAdmitted(event: ProxyEvent, now: string)
    requires PermissionsOf(AuthorizerClaims(event)).Some?
    requires var claim := PermissionsOf(AuthorizerClaims(event)).value;
             Contains(claim, RequiredPermission) && ',' !in claim && claim != RequiredPermission
    ensures Handler(event, now).statusCode == 200
    ensures RequiredPermission !in Split(PermissionsOf(AuthorizerClaims(event)).value, ',')
  {
    SplitWithoutSeparator(PermissionsOf(AuthorizerClaims(event)).value, ',');
  }

  /** For instance, a claim of only `booking:read-all` is admitted. */
  lemma SuperstringAdmitted(now: string)
    ensures var event := ProxyEvent(RequestContext(Some(Authorizer(Some(map[PermissionsClaim := "booking:read-all"])))));
            && Handler(event, now).statusCode == 200
            && RequiredPermission !in Split("booking:read-all", ',')
  {
    var claim := "booking:read-all";
    assert claim[0..|RequiredPermission|] == RequiredPermission;
    assert OccursAt(claim, RequiredPermission, 0);
    var event := ProxyEvent(RequestContext(Some(Authorizer(Some(map[PermissionsClaim := claim])))));
    UnlistedSuperstringAdmitted(event, now);
  }

  /** Membership in the comma list implies admission: every entry of the
      split claim is a substring of the claim. */
  lemma ListedPermissionAdmitted(event: ProxyEvent, now: string)
    requires PermissionsOf(AuthorizerClaims(event)).Some?
    requires RequiredPermission in Split(PermissionsOf(AuthorizerClaims(event)).value, ',')
    ensures Handler(event, now).statusCode == 200
  {
    var claim := PermissionsOf(AuthorizerClaims(event)).value;
    var pieces := Split(claim, ',');
    var k :| 0 <= k < |pieces| && pieces[k] == RequiredPermission;
    PartContainedInJoin(pieces, [','], k);
    JoinSplit(claim, ',');
  }
}
