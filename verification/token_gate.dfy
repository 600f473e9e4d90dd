/** How the two handlers meet: the access token issued after the
    pre-token-generation trigger carries the joined `permissions` claim,
    and the API's authorizer hands that claim to the booking handler. */
module TokenGate {
  import opened Wrappers
  import opened Strings
  import opened TokenClaims
  import opened PreTokenGeneration
  import GetBooking

  /** The booking request whose authorizer presents `claims`. */
  function GateEventFor(claims: Claims): GetBooking.ProxyEvent {
    GetBooking.ProxyEvent(GetBooking.RequestContext(Some(GetBooking.Authorizer(Some(claims)))))
  }

  /** The claims the enricher put into the access token of `issued`, the
      event the trigger returned. */
  function IssuedClaims(issued: TriggerEvent): Claims
    requires AccessTokenClaims(issued).Some?
  {
    AccessTokenClaims(issued).value
  }

  /** A merged permission containing `needle` was listed by a returned item. */
  lemma MergedContainsToListed(output: BatchGetOutput, tableName: string, needle: string, k: nat)
    requires MergedPermissions(output, tableName).Success?
    requires k < |MergedPermissions(output, tableName).value|
    requires Contains(MergedPermissions(output, tableName).value[k], needle)
    ensures var items := TableItems(output, tableName).value;
            exists i, p :: 0 <= i < |items| && PermissionsAttribute in items[i] &&
                           p in StringSet(items[i][PermissionsAttribute]) && Contains(p, needle)
  {
    var items := TableItems(output, tableName).value;
    var p := MergedPermissions(output, tableName).value[k];
    assert p in MergedPermissions(output, tableName).value;
    MergedPermissionMember(output, tableName, p);
    var i :| 0 <= i < |items| && PermissionsAttribute in items[i] && p in StringSet(items[i][PermissionsAttribute]);
    assert Contains(p, needle);
  }

  /** A listed permission containing `needle` is among the merged ones. */
  lemma ListedToMergedContains(output: BatchGetOutput, tableName: string, needle: string, i: nat, p: string)
    requires MergedPermissions(output, tableName).Success?
    requires i < |TableItems(output, tableName).value|
    requires PermissionsAttribute in TableItems(output, tableName).value[i]
    requires p in StringSet(TableItems(output, tableName).value[i][PermissionsAttribute])
    requires Contains(p, needle)
    ensures var merged := MergedPermissions(output, tableName).value;
            exists k :: 0 <= k < |merged| && Contains(merged[k], needle)
  {
    var merged := MergedPermissions(output, tableName).value;
    MergedPermissionMember(output, tableName, p);
    var k :| 0 <= k < |merged| && merged[k] == p;
    assert Contains(merged[k], needle);
  }

  /** Some merged permission contains `needle` exactly when some returned
      item lists a permission containing it. */
  lemma MergedContainsIffListed(output: BatchGetOutput, tableName: string, needle: string)
    requires MergedPermissions(output, tableName).Success?
    ensures var merged := MergedPermissions(output, tableName).value;
            var items := TableItems(output, tableName).value;
            (exists k :: 0 <= k < |merged| && Contains(merged[k], needle)) <==>
            (exists i, p :: 0 <= i < |items| && PermissionsAttribute in items[i] &&
                            p in StringSet(items[i][PermissionsAttribute]) && Contains(p, needle))
  {
    var merged := MergedPermissions(output, tableName).value;
    var items := TableItems(output, tableName).value;
    if exists k :: 0 <= k < |merged| && Contains(merged[k], needle) {
      var k :| 0 <= k < |merged| && Contains(merged[k], needle);
      MergedContainsToListed(output, tableName, needle, k);
    }
    if exists i, p :: 0 <= i < |items| && PermissionsAttribute in items[i] &&
                      p in StringSet(items[i][PermissionsAttribute]) && Contains(p, needle) {
      var i, p :| 0 <= i < |items| && PermissionsAttribute in items[i] &&
                  p in StringSet(items[i][PermissionsAttribute]) && Contains(p, needle);
      ListedToMergedContains(output, tableName, needle, i, p);
    }
  }

  /** The gate admits a token issued for a caller with groups exactly when
      one of the merged permissions contains `booking:read`: the needle is
      non-empty and has no comma, so it can neither span a separator of the
      joined claim nor occur in the empty claim. */
  lemma EnrichedTokenAdmitted(event: TriggerEvent, tableName: string,
                              send: Send, now: string)
    requires |Groups(event)| > 0
    requires Handler(event, tableName, send).Success?
    ensures var merged := MergedPermissions(LookupOutput(event, tableName, send), tableName).value;
            GetBooking.Handler(GateEventFor(IssuedClaims(Handler(event, tableName, send).value)), now).statusCode == 200 <==>
              exists k :: 0 <= k < |merged| && Contains(merged[k], GetBooking.RequiredPermission)
  {
    var merged := MergedPermissions(LookupOutput(event, tableName, send), tableName).value;
    var gateEvent := GateEventFor(IssuedClaims(Handler(event, tableName, send).value));
    assert GetBooking.PermissionsOf(GetBooking.AuthorizerClaims(gateEvent)) == Some(Join(merged, [Separator]));
    ContainsThroughJoin(merged, Separator, GetBooking.RequiredPermission);
  }

  /** The same in terms of the store's answer: the gate admits the issued
      token exactly when one of the returned permission records lists a
      permission containing `booking:read`. */
  lemma EnrichedTokenAdmittedByRecords(event: TriggerEvent, tableName: string,
                                       send: Send, now: string)
    requires |Groups(event)| > 0
    requires Handler(event, tableName, send).Success?
    ensures var items := TableItems(LookupOutput(event, tableName, send), tableName).value;
            GetBooking.Handler(GateEventFor(IssuedClaims(Handler(event, tableName, send).value)), now).statusCode == 200 <==>
              exists i, p :: 0 <= i < |items| && PermissionsAttribute in items[i] &&
                             p in StringSet(items[i][PermissionsAttribute]) &&
                             Contains(p, GetBooking.RequiredPermission)
  {
    EnrichedTokenAdmitted(event, tableName, send, now);
    MergedContainsIffListed(LookupOutput(event, tableName, send), tableName, GetBooking.RequiredPermission);
  }

  /** When at least one permission was merged and none contains a comma,
      splitting the issued claim on commas gives back the merged list, so
      a consumer that tests list membership sees exactly the merged
      permissions. */
  lemma IssuedClaimSplitsToMerged(event: TriggerEvent, tableName: string, send: Send)
    requires |Groups(event)| > 0
    requires Handler(event, tableName, send).Success?
    requires var merged := MergedPermissions(LookupOutput(event, tableName, send), tableName).value;
             |merged| > 0 && forall k :: 0 <= k < |merged| ==> Separator !in merged[k]
    ensures PermissionsClaim in IssuedClaims(Handler(event, tableName, send).value)
    ensures Split(IssuedClaims(Handler(event, tableName, send).value)[PermissionsClaim], Separator) ==
              MergedPermissions(LookupOutput(event, tableName, send), tableName).value
  {
    SplitJoin(MergedPermissions(LookupOutput(event, tableName, send), tableName).value, Separator);
  }
}
