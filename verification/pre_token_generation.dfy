/** The pre-token-generation trigger of the user pool: before a token is
    issued it looks up, for each group the caller is in, the permission set
    stored under (app client id, group), merges the sets, writes them as one
    comma-joined `permissions` claim and asks for the claims to be put into
    both the ID token and the access token.

    The DynamoDB `BatchGetItem` call is the parameter `send`, which may
    reject; the table name, read from the environment, is the parameter
    `tableName`. */
module PreTokenGeneration {
  import opened Wrappers
  import opened Seqs
  import opened Strings
  import opened TokenClaims

  datatype GroupConfiguration = GroupConfiguration(
    groupsToOverride: Option<seq<string>>,
    iamRolesToOverride: seq<string>,
    preferredRole: string)

  datatype ClaimsAndScopeOverrideDetails = ClaimsAndScopeOverrideDetails(
    claimsToAddOrOverride: Option<Claims>,
    claimsToSuppress: Option<seq<string>>,
    scopesToAdd: Option<seq<string>>,
    scopesToSuppress: Option<seq<string>>)

  datatype GroupOverrideDetails = GroupOverrideDetails(
    groupsToOverride: seq<string>,
    iamRolesToOverride: seq<string>,
    preferredRole: string)

  datatype TriggerRequest = TriggerRequest(
    userAttributes: Claims,
    scopes: seq<string>,
    groupConfiguration: GroupConfiguration,
    clientMetadata: map<string, string>)

  datatype OverrideDetails = OverrideDetails(
    idTokenGeneration: Option<ClaimsAndScopeOverrideDetails>,
    accessTokenGeneration: Option<ClaimsAndScopeOverrideDetails>,
    groupOverrideDetails: Option<GroupOverrideDetails>)

  datatype TriggerResponse = TriggerResponse(claimsAndScopeOverrideDetails: OverrideDetails)

  datatype CallerContext = CallerContext(awsSdkVersion: string, clientId: string)

  datatype TriggerEvent = TriggerEvent(
    callerContext: CallerContext,
    request: TriggerRequest,
    response: TriggerResponse)

  /** A DynamoDB attribute value: a string set, a string, or one of the
      other kinds, which the handler never inspects. */
  datatype AttributeValue = SS(ss: seq<string>) | S(s: string) | OtherValue

  /** A stored item, attribute name to value. */
  type Item = map<string, AttributeValue>

  /** The primary key of a permission record: partition key `pk` (the app
      client id) and sort key `sk` (the group name). */
  datatype Key = Key(pk: string, sk: string)

  datatype BatchGetRequest = BatchGetRequest(tableName: string, keys: seq<Key>)

  /** `BatchGetItemCommandOutput.Responses`: items per table, possibly absent. */
  datatype BatchGetOutput = BatchGetOutput(responses: Option<map<string, seq<Item>>>)

  /** Why the store rejected a call (a throttling, network or validation
      error, by its name); the handler does not inspect it. */
  datatype StoreError = StoreError(name: string)

  /** `client.send` for a batch get: it resolves with the output or rejects. */
  type Send = BatchGetRequest -> Result<BatchGetOutput, StoreError>

  /** Why an invocation rejects; no token is issued then. `StoreRejected` is
      a rejected `await client.send(command)`. The other two are the
      TypeErrors of dereferencing `undefined`: `TableItemsMissing` when
      `Responses` is absent or has no entry for the table,
      `PermissionsAttributeMissing` when a returned item has no `permissions`
      attribute. */
  datatype HandlerError =
    | StoreRejected(cause: StoreError)
    | TableItemsMissing
    | PermissionsAttributeMissing

  const PermissionsAttribute := "permissions"
  const Separator := ','

  /** `groupsToOverride`, with an absent list read as empty (`?.length ?? 0`). */
  function Groups(event: TriggerEvent): seq<string> {
    event.request.groupConfiguration.groupsToOverride.GetOr([])
  }

  /** `groups.map(group => ({ pk: clientId, sk: group }))`. */
  function LookupKeys(clientId: string, groups: seq<string>): (keys: seq<Key>)
    ensures |keys| == |groups|
    ensures forall i :: 0 <= i < |groups| ==> keys[i].pk == clientId && keys[i].sk == groups[i]
  {
    if |groups| == 0 then [] else [Key(clientId, groups[0])] + LookupKeys(clientId, groups[1..])
  }

  /** The batch-get request the handler sends, or None when it sends none. */
  function BuildRequest(event: TriggerEvent, tableName: string): (r: Option<BatchGetRequest>)
    ensures r.None? <==> |Groups(event)| == 0
    ensures r.Some? ==> r.value.tableName == tableName
    ensures r.Some? ==> |r.value.keys| == |Groups(event)|
    ensures r.Some? ==> forall i :: 0 <= i < |r.value.keys| ==>
              r.value.keys[i] == Key(event.callerContext.clientId, Groups(event)[i])
  {
    var groups := Groups(event);
    if |groups| > 0 then Some(BatchGetRequest(tableName, LookupKeys(event.callerContext.clientId, groups)))
    else None
  }

  /** `data.Responses![tableName]`; None where the handler would dereference
      `undefined`. */
  function TableItems(output: BatchGetOutput, tableName: string): Option<seq<Item>> {
    if output.responses.Some? && tableName in output.responses.value
    then Some(output.responses.value[tableName])
    else None
  }

  /** `.SS ?? []` on an attribute value: only a string set contributes. */
  function StringSet(v: AttributeValue): seq<string> {
    match v
    case SS(ss) => ss
    case _ => []
  }

  /** `items.map(item => item.permissions.SS ?? [])`, which throws on the
      first item without a `permissions` attribute. */
  function PermissionLists(items: seq<Item>): (r: Result<seq<seq<string>>, HandlerError>)
    ensures r.Failure? <==> exists i :: 0 <= i < |items| && PermissionsAttribute !in items[i]
    ensures r.Failure? ==> r.error == PermissionsAttributeMissing
    ensures r.Success? ==> |r.value| == |items|
    ensures r.Success? ==> forall i :: 0 <= i < |items| ==>
              r.value[i] == StringSet(items[i][PermissionsAttribute])
  {
    if |items| == 0 then Success([])
    else if PermissionsAttribute !in items[0] then Failure(PermissionsAttributeMissing)
    else
      var rest := PermissionLists(items[1..]);
      if rest.Failure? then
        assert forall i :: 0 <= i < |items| - 1 ==> items[1..][i] == items[i + 1];
        rest
      else Success([StringSet(items[0][PermissionsAttribute])] + rest.value)
  }

  /** Lines 79-81: the merged permission list read from the batch-get output,
      `[...new Set(lists.flat())]`, or the error the handler throws. */
  function MergedPermissions(output: BatchGetOutput, tableName: string): (r: Result<seq<string>, HandlerError>)
    ensures r.Failure? <==>
              TableItems(output, tableName).None? ||
              exists i :: 0 <= i < |TableItems(output, tableName).value| &&
                          PermissionsAttribute !in TableItems(output, tableName).value[i]
    ensures r.Success? ==> NoDuplicates(r.value)
  {
    match TableItems(output, tableName)
    case None => Failure(TableItemsMissing)
    case Some(items) =>
      var lists :- PermissionLists(items);
      Success(Dedup(Flatten(lists)))
  }

  /** The override the handler installs: the same claims for both tokens,
      nothing suppressed, no scopes, no group override. */
  function OverrideWith(claims: Claims): TriggerResponse {
    var details := ClaimsAndScopeOverrideDetails(Some(claims), None, None, None);
    TriggerResponse(OverrideDetails(Some(details), Some(details), None))
  }

  /** The response says exactly "add or override `claims` in both tokens". */
  predicate OverridesBothTokensWith(response: TriggerResponse, claims: Claims) {
    var d := response.claimsAndScopeOverrideDetails;
    && d.idTokenGeneration.Some?
    && d.accessTokenGeneration.Some?
    && d.idTokenGeneration.value.claimsToAddOrOverride == Some(claims)
    && d.accessTokenGeneration.value.claimsToAddOrOverride == Some(claims)
    && d.idTokenGeneration.value.claimsToSuppress.None?
    && d.idTokenGeneration.value.scopesToAdd.None?
    && d.idTokenGeneration.value.scopesToSuppress.None?
    && d.accessTokenGeneration.value.claimsToSuppress.None?
    && d.accessTokenGeneration.value.scopesToAdd.None?
    && d.accessTokenGeneration.value.scopesToSuppress.None?
    && d.groupOverrideDetails.None?
  }

  /** The claims the handler put into the access token's override. */
  function AccessTokenClaims(event: TriggerEvent): Option<Claims> {
    var d := event.response.claimsAndScopeOverrideDetails;
    if d.accessTokenGeneration.Some? then d.accessTokenGeneration.value.claimsToAddOrOverride else None
  }

  /** `claims` agree with `original` on every claim except `permissions`. */
  ghost predicate OnlyPermissionsChanged(original: Claims, claims: Claims) {
    forall name :: name != PermissionsClaim ==>
      (name in claims <==> name in original) && (name in claims ==> claims[name] == original[name])
  }

  /** The handler. The claims object is shared between the request's
      `userAttributes` and both overrides, so the returned event carries the
      updated claims in all three places. */
  function Handler(event: TriggerEvent, tableName: string, send: Send): (r: Result<TriggerEvent, HandlerError>)
    ensures |Groups(event)| == 0 ==> r.Success? && r.value.request == event.request
    ensures r.Failure? <==>
              |Groups(event)| > 0 &&
              (Lookup(event, tableName, send).Failure? ||
               MergedPermissions(Lookup(event, tableName, send).value, tableName).Failure?)
    ensures |Groups(event)| > 0 && Lookup(event, tableName, send).Failure? ==>
              r == Failure(StoreRejected(Lookup(event, tableName, send).error))
    ensures r.Success? ==> OverridesBothTokensWith(r.value.response, r.value.request.userAttributes)
    ensures r.Success? ==> OnlyPermissionsChanged(event.request.userAttributes, r.value.request.userAttributes)
    ensures r.Success? ==> r.value.callerContext == event.callerContext
    ensures r.Success? ==> r.value.request == event.request.(userAttributes := r.value.request.userAttributes)
    ensures r.Success? && |Groups(event)| > 0 ==>
              PermissionsClaim in r.value.request.userAttributes &&
              r.value.request.userAttributes[PermissionsClaim] ==
                Join(MergedPermissions(Lookup(event, tableName, send).value, tableName).value, [Separator])
  {
    var claims := event.request.userAttributes;
    match BuildRequest(event, tableName)
    case None =>
      Success(event.(response := OverrideWith(claims)))
    case Some(command) =>
      var sent := send(command);
      if sent.Failure? then Failure(StoreRejected(sent.error)) else
      var permissions :- MergedPermissions(sent.value, tableName);
      var updated := claims[PermissionsClaim := Join(permissions, [Separator])];
      Success(event.(request := event.request.(userAttributes := updated), response := OverrideWith(updated)))
  }

  /** What `await client.send(command)` gives when the handler makes a
      lookup. */
  function Lookup(event: TriggerEvent, tableName: string, send: Send): Result<BatchGetOutput, StoreError>
    requires |Groups(event)| > 0
  {
    send(BuildRequest(event, tableName).value)
  }

  /** The batch-get output the handler reads when the lookup resolves. */
  function LookupOutput(event: TriggerEvent, tableName: string, send: Send): BatchGetOutput
    requires |Groups(event)| > 0 && Lookup(event, tableName, send).Success?
  {
    Lookup(event, tableName, send).value
  }

  /** Without groups nothing is looked up: the outcome does not depend on
      the store at all, and the claims pass through unchanged to both
      tokens. */
  lemma NoGroupsNoLookup(event: TriggerEvent, tableName: string,
                         send: Send, other: Send)
    requires |Groups(event)| == 0
    ensures Handler(event, tableName, send) == Handler(event, tableName, other)
    ensures Handler(event, tableName, send).Success?
    ensures OverridesBothTokensWith(Handler(event, tableName, send).value.response, event.request.userAttributes)
  {
  }

  /** The flattened permission sets of the returned items, in response
      order: the sequence the handler feeds into its `Set`. */
  function ResponsePermissions(output: BatchGetOutput, tableName: string): seq<string>
    requires MergedPermissions(output, tableName).Success?
  {
    Flatten(PermissionLists(TableItems(output, tableName).value).value)
  }

  /** The merged list follows the order in which permissions first occur in
      the response, as a JavaScript `Set` does: permissions first seen
      earlier come earlier, and none is placed later than its first
      occurrence. */
  lemma MergedPermissionsOrder(output: BatchGetOutput, tableName: string)
    requires MergedPermissions(output, tableName).Success?
    ensures var merged := MergedPermissions(output, tableName).value;
            && InFirstOccurrenceOrder(ResponsePermissions(output, tableName), merged)
            && forall k :: 0 <= k < |merged| ==> k <= FirstIndex(ResponsePermissions(output, tableName), merged[k])
  {
    DedupFirstOccurrenceOrder(ResponsePermissions(output, tableName));
  }

  /** One permission at a time: it is merged exactly when some returned
      item's string set lists it. */
  lemma MergedPermissionMember(output: BatchGetOutput, tableName: string, p: string)
    requires MergedPermissions(output, tableName).Success?
    ensures var items := TableItems(output, tableName).value;
            p in MergedPermissions(output, tableName).value <==>
              exists i :: 0 <= i < |items| && PermissionsAttribute in items[i] &&
                          p in StringSet(items[i][PermissionsAttribute])
  {
    FlattenMembers(PermissionLists(TableItems(output, tableName).value).value, p);
  }

  /** When the lookup finds no permissions at all, the claim is set to the
      empty string rather than left alone. */
  lemma NothingFoundEmptyClaim(event: TriggerEvent, tableName: string, send: Send)
    requires |Groups(event)| > 0
    requires Handler(event, tableName, send).Success?
    requires var items := TableItems(LookupOutput(event, tableName, send), tableName).value;
             forall i :: 0 <= i < |items| ==> StringSet(items[i][PermissionsAttribute]) == []
    ensures Handler(event, tableName, send).value.request.userAttributes[PermissionsClaim] == ""
  {
    var output := LookupOutput(event, tableName, send);
    forall p {
      MergedPermissionMember(output, tableName, p);
    }
    EmptyIffNoMembers(MergedPermissions(output, tableName).value);
  }

  /** An idealised store: a table holding permission records by key. */
  type Store = map<Key, Item>

  /** The stored items for those keys that are present, in key order. */
  function Found(store: Store, keys: seq<Key>): (items: seq<Item>)
    ensures forall item :: item in items <==> exists k :: k in keys && k in store && store[k] == item
  {
    if |keys| == 0 then []
    else
      var rest := Found(store, keys[1..]);
      assert forall k :: k in keys <==> k == keys[0] || k in keys[1..];
      (if keys[0] in store then [store[keys[0]]] else []) + rest
  }

  /** The most keys one `BatchGetItem` call accepts. */
  const MaxBatchKeys := 100

  /** A batch get against `store`. Like DynamoDB it rejects a request with
      more than `MaxBatchKeys` keys or with a key given twice
      (`ValidationException`); otherwise it returns every present key, under
      the requested table, and silently skips absent keys. */
  function IdealBatchGet(store: Store): Send {
    (req: BatchGetRequest) =>
      if |req.keys| > MaxBatchKeys || !NoDuplicates(req.keys) then Failure(StoreError("ValidationException"))
      else Success(BatchGetOutput(Some(map[req.tableName := Found(store, req.keys)])))
  }

  /** The keys of the lookup are exactly (client id, g) for the caller's
      groups g. */
  lemma LookupKeysOfGroups(event: TriggerEvent, tableName: string, k: Key)
    requires |Groups(event)| > 0
    ensures k in BuildRequest(event, tableName).value.keys <==>
              exists g :: g in Groups(event) && k == Key(event.callerContext.clientId, g)
  {
  }

  /** Some found item lacks the `permissions` attribute exactly when some
      requested key holds such an item. */
  lemma FoundLacksPermissions(store: Store, keys: seq<Key>)
    ensures (exists i :: 0 <= i < |Found(store, keys)| && PermissionsAttribute !in Found(store, keys)[i]) <==>
            (exists k :: k in keys && k in store && PermissionsAttribute !in store[k])
  {
    var items := Found(store, keys);
    if exists i :: 0 <= i < |items| && PermissionsAttribute !in items[i] {
      var i :| 0 <= i < |items| && PermissionsAttribute !in items[i];
      assert items[i] in items;
      var k :| k in keys && k in store && store[k] == items[i];
      assert PermissionsAttribute !in store[k];
      assert exists k :: k in keys && k in store && PermissionsAttribute !in store[k];
      assert exists i :: 0 <= i < |Found(store, keys)| && PermissionsAttribute !in Found(store, keys)[i];
    } else {
      forall k | k in keys && k in store
        ensures PermissionsAttribute in store[k]
      {
        assert store[k] in items;
      }
    }
  }

  /** A permission is listed by some found item exactly when it is listed by
      the stored item of some requested key. */
  lemma FoundListsPermission(store: Store, keys: seq<Key>, p: string)
    requires forall k :: k in keys && k in store ==> PermissionsAttribute in store[k]
    ensures (exists i :: 0 <= i < |Found(store, keys)| &&
               PermissionsAttribute in Found(store, keys)[i] &&
               p in StringSet(Found(store, keys)[i][PermissionsAttribute])) <==>
            (exists k :: k in keys && k in store && p in StringSet(store[k][PermissionsAttribute]))
  {
    var items := Found(store, keys);
    if exists i :: 0 <= i < |items| && PermissionsAttribute in items[i] && p in StringSet(items[i][PermissionsAttribute]) {
      var i :| 0 <= i < |items| && PermissionsAttribute in items[i] && p in StringSet(items[i][PermissionsAttribute]);
      assert items[i] in items;
    }
    if exists k :: k in keys && k in store && p in StringSet(store[k][PermissionsAttribute]) {
      var k :| k in keys && k in store && p in StringSet(store[k][PermissionsAttribute]);
      assert store[k] in items;
      var i :| 0 <= i < |items| && items[i] == store[k];
      assert exists i :: 0 <= i < |Found(store, keys)| &&
               PermissionsAttribute in Found(store, keys)[i] &&
               p in StringSet(Found(store, keys)[i][PermissionsAttribute]);
    }
  }

  /** The lookup keys repeat exactly when the groups do: every key has the
      caller's client id as its partition key. */
  lemma LookupKeysDistinct(clientId: string, groups: seq<string>)
    ensures NoDuplicates(LookupKeys(clientId, groups)) <==> NoDuplicates(groups)
  {
    var keys := LookupKeys(clientId, groups);
    assert forall i, j :: 0 <= i < |groups| && 0 <= j < |groups| ==> (keys[i] == keys[j] <==> groups[i] == groups[j]);
  }

  /** An idealised store rejects the lookup exactly when the caller is in
      more than `MaxBatchKeys` groups or the group list repeats a group. */
  lemma IdealStoreRejects(event: TriggerEvent, tableName: string, store: Store)
    requires |Groups(event)| > 0
    ensures Lookup(event, tableName, IdealBatchGet(store)).Failure? <==>
              |Groups(event)| > MaxBatchKeys || !NoDuplicates(Groups(event))
  {
    LookupKeysDistinct(event.callerContext.clientId, Groups(event));
  }

  /** Against an idealised store the handler fails exactly when the store
      rejects the lookup (too many or repeated groups) or a stored record of
      one of the caller's groups has no `permissions` attribute. */
  lemma IdealStoreFailure(event: TriggerEvent, tableName: string, store: Store)
    requires |Groups(event)| > 0
    ensures Handler(event, tableName, IdealBatchGet(store)).Failure? <==>
              || |Groups(event)| > MaxBatchKeys
              || !NoDuplicates(Groups(event))
              || exists g :: g in Groups(event) && Key(event.callerContext.clientId, g) in store &&
                             PermissionsAttribute !in store[Key(event.callerContext.clientId, g)]
  {
    IdealStoreRejects(event, tableName, store);
    var req := BuildRequest(event, tableName).value;
    if IdealBatchGet(store)(req).Success? {
      assert TableItems(IdealBatchGet(store)(req).value, tableName) == Some(Found(store, req.keys));
      FoundLacksPermissions(store, req.keys);
      forall k {
        LookupKeysOfGroups(event, tableName, k);
      }
    }
  }

  /** Against an idealised store, when the handler succeeds, the merged
      permissions are the union of the permission sets stored under
      (client id, g) for the caller's groups g; groups without a record
      contribute nothing and cause no failure. */
  lemma IdealStoreUnion(event: TriggerEvent, tableName: string, store: Store, p: string)
    requires |Groups(event)| > 0
    requires Handler(event, tableName, IdealBatchGet(store)).Success?
    ensures p in MergedPermissions(LookupOutput(event, tableName, IdealBatchGet(store)), tableName).value <==>
              exists g :: g in Groups(event) && Key(event.callerContext.clientId, g) in store &&
                          PermissionsAttribute in store[Key(event.callerContext.clientId, g)] &&
                          p in StringSet(store[Key(event.callerContext.clientId, g)][PermissionsAttribute])
  {
    var req := BuildRequest(event, tableName).value;
    var output := IdealBatchGet(store)(req).value;
    assert TableItems(output, tableName) == Some(Found(store, req.keys));
    IdealStoreFailure(event, tableName, store);
    forall k {
      LookupKeysOfGroups(event, tableName, k);
    }
    MergedPermissionMember(output, tableName, p);
    FoundListsPermission(store, req.keys, p);
  }
}
