# Fine-grained authorization with Amazon Cognito — handler model

A Dafny model of the two pieces of run-time logic in the stack.

- **Pre-token-generation trigger** (`lib/handlers/pre-token-generation.ts`). Cognito calls it before it issues a token. For each group in `groupsToOverride` it builds one DynamoDB key `(pk = app client id, sk = group)`. It reads all of them in one `BatchGetItem`. It flattens the `permissions` string sets of the returned items and deduplicates them with a JavaScript `Set`, which keeps first-occurrence order. It joins the result with `,` into the `permissions` claim. The same claims map then overrides both the ID token and the access token. With no groups it makes no lookup and passes the claims through unchanged.
- **Booking handler** (`lib/handlers/get-booking.ts`). It sits behind the API's Cognito authorizer. It answers 403 `{"message":"Forbidden"}` unless the `permissions` claim is a non-empty string containing `booking:read` as a substring. Otherwise it answers 200 with a fixed sample booking.

Files:

- `token_claims.dfy` (`TokenClaims`): the claims map and the name of the `permissions` claim, shared by both handlers.
- `wrappers.dfy` (`Wrappers`): `Option` for values that may be `undefined`, and `Result` for an invocation that resolves or throws.
- `seqs.dfy` (`Seqs`): `Flatten` (`Array.prototype.flat`) and `Dedup` (`[...new Set(xs)]`), plus a one-pass `DedupWithSet` that mirrors the runtime set. Dedup is characterised as the unique duplicate-free list in first-occurrence order.
- `strings.dfy` (`Strings`): `Contains` (`String.prototype.includes`), `Join` (`Array.prototype.join`) and `Split` (`String.prototype.split` on one character). Join and split are proved to be inverses. A needle without the separator is proved never to straddle a join boundary.
- `pre_token_generation.dfy` (`PreTokenGeneration`): the trigger's event and response types, the DynamoDB item shapes, the handler, and its properties. It also holds an idealised store against which the lookup is the union of the stored permission sets.
- `get_booking.dfy` (`GetBooking`): the booking handler and its cases.
- `token_gate.dfy` (`TokenGate`): what happens when the booking handler sees the `permissions` claim that the trigger issued.

The environment is turned into parameters:

- The DynamoDB `BatchGetItem` call is the function parameter `send` of `PreTokenGeneration.Handler`. It either resolves with the output or rejects with a `StoreError`, as `await client.send(command)` does. "No lookup" can therefore be stated as "the result does not depend on `send`".
- `process.env.TABLE_NAME` is the parameter `tableName`.
- `new Date().toISOString()` in the booking is the parameter `now`.

The trigger's rejections are modelled as `Failure` outcomes. There are three kinds: the store call rejects (`StoreRejected`), `Responses` is undefined or has no entry for the table (`TableItemsMissing`), or an item has no `permissions` attribute (`PermissionsAttributeMissing`). In the source each of these rejects the invocation, and Cognito then issues no token. The idealised store used in the lemmas rejects the way DynamoDB does: more than 100 keys, or a key given twice. Both can come from `groupsToOverride`.

Points where the code's behaviour is easy to misread:

- The gate tests substring containment (`includes`), not membership in the comma list. `GetBooking.SuperstringAdmitted` shows that `booking:read-all` alone is admitted.
- The merged permissions have a definite order: first occurrence in the flattened batch-get response, because a JavaScript `Set` iterates in insertion order. The model proves that order. The order of the response itself is whatever DynamoDB returns, and the model takes it as input.
- An absent `groupsToOverride` is read as empty (`groups?.length ?? 0`).

## Model

| member | source | states |
|---|---|---|
| Seqs.Dedup | lib/handlers/pre-token-generation.ts:79-81 | the `Set`-deduplicated list has no duplicates, holds exactly the elements of its input, and is no longer than the input |
| Seqs.DedupFirstOccurrenceOrder | lib/handlers/pre-token-generation.ts:79-81 | the deduplicated list follows first-occurrence order of the input (JS `Set` insertion order); each element sits no later than its first occurrence |
| Seqs.DedupCharacterisation | lib/handlers/pre-token-generation.ts:79-81 | a list equals the deduplication of `s` if and only if it has the same elements as `s` and lists them in first-occurrence order |
| Seqs.DedupWithSet | lib/handlers/pre-token-generation.ts:79-81 | one pass that inserts each element into a set, appending only unseen ones, yields exactly the deduplicated list |
| Seqs.FlattenMembers | lib/handlers/pre-token-generation.ts:79-81 | an element is in the flattened list iff it is in one of the inner lists (`.flat()`) |
| Strings.ContainsThroughJoin | lib/handlers/get-booking.ts:6 | a non-empty needle without the separator occurs in the joined string iff it occurs in one of the parts |
| Strings.PartContainedInJoin | lib/handlers/pre-token-generation.ts:83 | every part is a substring of the joined string |
| Strings.SplitJoin | lib/handlers/pre-token-generation.ts:83 | splitting a join of one or more separator-free parts on the separator gives the parts back |
| Strings.JoinSplit | lib/handlers/pre-token-generation.ts:83 | joining the pieces of a split restores the string, and no piece holds the separator |
| PreTokenGeneration.LookupKeys | lib/handlers/pre-token-generation.ts:70-73 | one key per group in group order, each with partition key the caller's client id and sort key the group |
| PreTokenGeneration.BuildRequest | lib/handlers/pre-token-generation.ts:64-76 | a request is built iff the (possibly absent) group list is non-empty; it names the table and holds key i = (clientId, group i) |
| PreTokenGeneration.PermissionLists | lib/handlers/pre-token-generation.ts:79-80 | fails iff some item lacks the `permissions` attribute; otherwise entry i is item i's string set, or empty when the attribute is not a string set |
| PreTokenGeneration.MergedPermissions | lib/handlers/pre-token-generation.ts:79-81 | fails iff `Responses`, the table's entry, or some item's `permissions` attribute is missing; on success the merged list has no duplicates |
| PreTokenGeneration.MergedPermissionsOrder | lib/handlers/pre-token-generation.ts:79-81 | the merged list is in first-occurrence order of the flattened response (JS `Set` insertion order), and no permission sits later than its first occurrence |
| PreTokenGeneration.Handler | lib/handlers/pre-token-generation.ts:59-97 | without groups the request passes through unchanged; fails iff a lookup is made and either the store call rejects (the failure then carries the store's error) or its output lacks a dereferenced field; on success both tokens get the same claims with nothing suppressed, no scopes and no group override, only `permissions` differs from the original claims, caller context and other request fields are unchanged, and with groups the claim is the comma-join of the merged list |
| PreTokenGeneration.MergedPermissionMember | lib/handlers/pre-token-generation.ts:79-81 | a given permission is merged iff some returned item with a `permissions` attribute lists it in its string set |
| PreTokenGeneration.NoGroupsNoLookup | lib/handlers/pre-token-generation.ts:63-95 | without groups the outcome is the same for every store and overrides both tokens with the original claims |
| PreTokenGeneration.NothingFoundEmptyClaim | lib/handlers/pre-token-generation.ts:79-83 | when groups exist but no returned item lists a permission, the claim is set to the empty string |
| PreTokenGeneration.Found | lib/handlers/pre-token-generation.ts:67-77 | the idealised batch get returns an item iff it is stored under one of the requested keys |
| PreTokenGeneration.LookupKeysDistinct | lib/handlers/pre-token-generation.ts:70-73 | the lookup keys repeat iff the groups repeat, since every key has the caller's client id as partition key |
| PreTokenGeneration.IdealStoreRejects | lib/handlers/pre-token-generation.ts:67-77 | an idealised store rejects the lookup iff the caller has more than 100 groups or a repeated group |
| PreTokenGeneration.IdealStoreFailure | lib/handlers/pre-token-generation.ts:67-80 | against an idealised store the handler fails iff the caller has more than 100 groups, a repeated group, or a stored record of one of its groups lacks the `permissions` attribute; absent records cause no failure |
| PreTokenGeneration.IdealStoreUnion | lib/handlers/pre-token-generation.ts:67-81 | against an idealised store a permission is merged iff it is in the permission set stored under (clientId, g) for some group g of the caller |
| GetBooking.Handler | lib/handlers/get-booking.ts:3-23 | status is 200 or 403 and depends on the claims only; 200 iff the `permissions` claim is present and contains `booking:read`; 403 carries `{"message":"Forbidden"}`, 200 the booking `456`/`Hotel California` |
| GetBooking.MissingPermissionsForbidden | lib/handlers/get-booking.ts:4-12 | no authorizer, no claims, no `permissions` claim or an empty one gives exactly the 403 response |
| GetBooking.UnlistedSuperstringAdmitted | lib/handlers/get-booking.ts:6 | a comma-free claim that contains `booking:read` without being exactly it is admitted, though `booking:read` is not among its comma-separated entries |
| GetBooking.SuperstringAdmitted | lib/handlers/get-booking.ts:6 | a claim of only `booking:read-all` is admitted although `booking:read` is not one of its comma-separated entries |
| GetBooking.ListedPermissionAdmitted | lib/handlers/get-booking.ts:6 | a claim listing `booking:read` as a comma-separated entry is admitted |
| TokenGate.MergedContainsIffListed | lib/handlers/pre-token-generation.ts:79-81 | some merged permission contains a needle iff some returned item lists a permission containing it |
| TokenGate.EnrichedTokenAdmitted | lib/handlers/get-booking.ts:6 | for a token the trigger issued with groups, the gate answers 200 iff some merged permission contains `booking:read`, since the comma-free needle cannot span a join separator |
| TokenGate.EnrichedTokenAdmittedByRecords | lib/handlers/get-booking.ts:6 | for such a token, the gate answers 200 iff some returned permission record lists a permission containing `booking:read` |
| TokenGate.IssuedClaimSplitsToMerged | lib/handlers/pre-token-generation.ts:79-83 | when the merged list is non-empty and comma-free, splitting the issued claim on commas gives back exactly the merged list |

## Left out

- The DynamoDB client and `client.send(new BatchGetItemCommand(...))` are a foreign SDK call. The model replaces them with the parameter `send`. `send` may reject with any `StoreError`, so throttling and network errors are covered without being named.
- `UnprocessedKeys` and the 16 MB response limit of `BatchGetItem` are left out. The handler ignores `UnprocessedKeys`, so a partial answer simply contributes fewer permissions. The idealised store (`IdealBatchGet`) always answers in full, in request order, once it accepts a request.
- `process.env.TABLE_NAME` and `console.log` are the environment and logging. The table name is a parameter and logging has no effect on results.
- `async`/`Promise` plumbing and in-place mutation of the event are left out. The handlers are pure functions that return the updated event. Because the claims object is shared, the returned request carries the updated `userAttributes` too.
- GetBooking.Handler: bodies are modelled as their field values, not as the JSON text `JSON.stringify` produces.
- The clock in the 200 body (`new Date().toISOString()`) is the parameter `now`.
- Only the fields of `APIGatewayProxyEvent` the booking handler reads (`requestContext.authorizer?.claims`) are modelled.
- `lib/fine-grained-authorization-with-amazon-cognito-stack.ts` is left out. It is declarative infrastructure wiring with no run-time logic.
- JavaScript strings are sequences of UTF-16 code units, but Dafny's `string` is a sequence of Unicode scalar values, so a string with a lone surrogate cannot be represented. On well-formed strings, `includes`, `split(",")`, `join` and `Set` equality agree with the model's `Contains`, `Split`, `Join` and `Dedup`.
- `src/client/server.ts` is left out. It is a static-file HTTP server, which is network and filesystem I/O.
