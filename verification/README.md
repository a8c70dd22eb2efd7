# Push fan-out and token lifecycle — a Dafny model

This project models the two Cloud Functions in `functions/index.js`, the server side of the
Tasker to-do app:

- `sendPushNotification` runs when a document is created under
  `users/{userId}/notifications/{notificationId}`. It reads the user's `fcmTokens`
  collection and builds one payload. It sends that payload to every token in a single
  multicast call. It then deletes, in one batch, the tokens the push service rejected as
  invalid or not registered.
- `cleanupOldTokens` runs daily. For each user document it deletes the tokens whose
  `lastUsed` is strictly older than 30 days, one batch per user, and adds up the number
  deleted.

The model is functional. The token store is `map<UserId, map<Token, Timestamp>>`. The push
gateway is a function parameter from the request to the per-token responses, and it must
answer with one response per token. Timestamps are integer seconds. Failures that the
source catches are explicit inputs:

- `DispatchFaults` says whether the token read or the deletion commit throws.
- An `Unreachable` gateway reply stands for a throwing send call.
- A set of failing users stands for users whose stale-token query or batch commit throws
  during a sweep.

Modules: `Options` (optional values), `Sequences` (element sets and repetition-free sequences), `Payloads` (payload
construction), `TokenStore` (the registry and batch deletion), `Gateway` (responses and the
selection of dead tokens), `Dispatcher` (the notification handler) and `Sweeper` (the
retention job).

Three behaviours of the code are easy to misread, and the model keeps them as written:

- The sweep has a single `try` around the whole per-user loop. The first user whose query
  or commit throws ends the sweep. Batches committed before it stay committed, and the
  users after it are not processed. There is no per-user failure isolation.
- In the dispatcher, a failed deletion commit is caught by the same `catch` as everything
  else. The handler then returns null even though the send already happened.
  `FailuresLeaveStoreUnchanged` states this.
- The deletion error codes are the prefixed ones the code compares against:
  `messaging/invalid-registration-token` and `messaging/registration-token-not-registered`.

## Model

| member | source | states |
|---|---|---|
| `Payloads.BuildPayload` | functions/index.js:28-41 | The title is the record's title when truthy, otherwise `Tasker`. The body is the record's body when truthy, otherwise empty. `imageUrl` is present exactly when the record's is truthy. The data keys are the three fixed keys plus the extras. Every extra's value wins. A fixed key keeps its default only when no extra of that name exists. |
| `Payloads.TitleNeverEmpty` | functions/index.js:31 | Every pushed notification has a non-empty title. |
| `Payloads.ExtrasOverrideFixedKeys` | functions/index.js:35-40 | For any extras map, the data map carries the document id exactly when no extra named `notificationId` holds a different value. When such an extra exists, its value wins. |
| `Payloads.FalsyFieldsAreInterchangeable` | functions/index.js:30-39 | Only truthiness matters: records that agree on their truthy fields and their extras yield the same payload, whether a falsy field is absent or "". |
| `TokenStore.ListingLength` | functions/index.js:17-26 | The listed token documents are as many as the collection holds, so the listing is empty exactly when the collection is. |
| `TokenStore.RemoveTokens` | functions/index.js:81-90 | A deletion batch leaves the set of users unchanged. It changes no other user's collection. It removes exactly the batch's keys from the target user and keeps the `lastUsed` of every remaining token. |
| `TokenStore.RemoveAbsentIsNoop` | functions/index.js:82-88 | Deleting tokens that are not present changes nothing. |
| `TokenStore.RemoveIdempotent` | functions/index.js:81-90 | Committing the same deletion batch twice equals committing it once. |
| `TokenStore.RemoveSubsetAgainIsNoop` | functions/index.js:81-90 | Deleting again any subset of a batch already deleted changes nothing further, so a redelivered event does no harm. |
| `TokenStore.RemovalsCommute` | functions/index.js:81-90 | Two deletion batches give the same store in either order. |
| `Gateway.IsPermanentFailure` | functions/index.js:71-74 | A successful response is never a permanent failure, and neither is a failure without an error code. A failure with a code is permanent exactly when the code is one of the two registration codes. |
| `Gateway.CountsPartition` | functions/index.js:68-94 | `successCount + failureCount` equals the number of responses. |
| `Gateway.NoFailuresMeansAllSucceeded` | functions/index.js:68 | `failureCount` is zero exactly when every response succeeded. |
| `Gateway.InvalidTokens` | functions/index.js:69-78 | A token is selected exactly when some index carries that token and a failed response with one of the two permanent codes. The selection is no longer than the token list. |
| `Gateway.AllSucceededNoInvalidTokens` | functions/index.js:71-77 | When every response succeeded, nothing is selected. |
| `Gateway.NoFailuresNoInvalidTokens` | functions/index.js:68-78 | When `failureCount` is zero, nothing is selected, so skipping the deletion block loses nothing. |
| `Gateway.SelectedIffPermanent` | functions/index.js:70-76 | With distinct tokens, `tokens[i]` is selected exactly when response `i` is a permanent failure. A success or any other error code keeps the token. |
| `Gateway.CollectFailedTokens` | functions/index.js:69-78 | The `forEach` loop builds exactly the selection `InvalidTokens` characterises. |
| `Dispatcher.Dispatch` | functions/index.js:11-99 | At most one send. A send happens exactly when the read succeeds and the user has tokens. The send carries the whole listing and the built payload. `NoTokens` happens exactly for a readable empty collection. A `Sent` completion carries the gateway's reply, aligned index by index with the listing. The run completes `Sent` exactly when the read succeeds, the user has tokens, the gateway replies, and either no response failed or the commit succeeds. The deleted tokens are then exactly the permanent failures of that reply, and none are deleted otherwise. The new store is the old one minus those tokens. |
| `Dispatcher.NoTokensIsNoop` | functions/index.js:23-26 | A user with no tokens gets no send and no deletion, and the handler does not return a response. |
| `Dispatcher.DeletesExactlyPermanentFailures` | functions/index.js:68-90 | When the read succeeds, the gateway replies, and either nothing failed or the commit succeeds, `listing[i]` is deleted exactly when response `i` is a permanent failure. Equivalently, after a `Sent` completion, `listing[i]` is gone from the user's collection exactly when response `i` is a permanent failure. After any other completion every listed token is kept. A kept token keeps its `lastUsed`. |
| `Dispatcher.FailuresLeaveStoreUnchanged` | functions/index.js:47-98 | When the deletion commit throws, the store is unchanged and one send was made. The invocation errors exactly when the gateway threw or there was at least one failure, that is, when a commit was attempted. |
| `Dispatcher.ScenarioResponses` | functions/index.js:70-78 | For the responses [success, not-registered], the counts are 1 and 1 and only `t2` is selected. |
| `Dispatcher.TwoDeviceScenario` | functions/index.js:15-95 | User `u1` has `t1` and `t2`, and `t2` is reported not registered. Afterwards `t2` is deleted, `t1` is kept with its `lastUsed`, and the response is returned. |
| `Sweeper.Cutoff` | functions/index.js:108-109 | The cutoff lies exactly 30 days (30 × 86400 seconds) before `now`. |
| `Sweeper.PurgeUser` | functions/index.js:116-126 | One user's purge only deletes and keeps every token at or after the cutoff. It leaves that user no stale token and does not touch other users. |
| `Sweeper.Sweep` | functions/index.js:111-127 | The per-user loop keeps the set of users. Its deleted count is zero exactly when no batch was committed. `SweepSound`, `SweepAbortsAtFirstFailure`, `SweepCountsStaleTokens` and `SweepCommitsOnlyForStale` state the rest. |
| `Sweeper.SweepSound` | functions/index.js:111-127 | A sweep only deletes and never deletes a token at or after the cutoff. It leaves unlisted users alone. It completes exactly when no listed user fails, and after a completed sweep no listed user keeps a stale token. |
| `Sweeper.Processed` | functions/index.js:111-134 | The number of users finished is the index of the first failing user, or all of them. |
| `Sweeper.SweepAbortsAtFirstFailure` | functions/index.js:111-134 | Every user before the first failure is swept. The failing user, and every user after it that did not occur earlier, keeps all its tokens. The sweep completes exactly when no user failed. |
| `Sweeper.SweepCountsStaleTokens` | functions/index.js:113-127 | With distinct users, `deletedCount` is the sum of the stale-token counts of the finished users. |
| `Sweeper.SweepCommitsOnlyForStale` | functions/index.js:115-126 | With distinct users, a batch is committed exactly for the finished users that had a stale token. A user with none causes no write. |
| `Sweeper.PurgeCountIsShrinkage` | functions/index.js:123-125 | The count a user adds equals how much that user's collection shrank. |
| `Sweeper.SweepOnCleanStoreIsNoop` | functions/index.js:115-127 | When no listed user has a stale token, the sweep changes nothing, counts zero and commits no batch. |
| `Sweeper.SweepIdempotent` | functions/index.js:105-135 | Running a completed sweep again with the same cutoff deletes and commits nothing. |
| `Sweeper.RetentionBoundary` | functions/index.js:108-119 | A token survives the sweep of its user exactly when its `lastUsed` is at or after `now` minus 30 days. The comparison is strict, so a token exactly at the cutoff is kept. |
| `Sweeper.DayHundredScenario` | functions/index.js:108-125 | With `now` at day 100, the token from day 69 is deleted, and the tokens from day 70 (the cutoff) and day 71 are kept. |
| `Sweeper.PurgeCommutesWithRemoval` | functions/index.js:116-124 | A user's purge and a dispatcher deletion batch for the same user give the same store in either order. |
| `Sweeper.CleanupOldTokens` | functions/index.js:105-135 | The handler's `for` loop computes the same store, count, commits and completion as `Sweep` with cutoff `now - 30 days`. A failed user query yields no change. |

## Left out

- Firebase wiring: `admin.initializeApp`, the trigger and schedule registration, and the
  shapes of `snap` and `context`. The record, its id and the user id are plain inputs.
- The transport behind `sendEachForMulticast`. The gateway is a function parameter that
  must return one response per token.
- The Android and APNs request decoration (priority, sound, channel id, badge). It is
  constant and does not affect any decision.
- Logging, and the handler's return values beyond the completion kind. `Sent` is the only
  case where the batch response is returned; otherwise the result is null.
- The calendar arithmetic of `Date.setDate` in local time. The cutoff is `now` minus
  30 × 86400 seconds, so daylight-saving shifts are not modelled.
- The order in which Firestore returns documents. The dispatcher takes the listing as an
  input that must name each of the user's tokens exactly once. The sweep takes the user
  listing as an input and needs no such property, because a user without tokens is a no-op.
- Token documents whose `token` field differs from their document id. The model keys each
  token by its id, which is what the deletion uses.
- Token documents without a `lastUsed` field, which the `<` query would skip, and
  non-string record fields. The model's `lastUsed` is always an integer and fields are
  strings or absent.
- Concurrency and at-least-once redelivery. Only the algebra that makes them harmless is
  stated: idempotent and commuting deletions.
- `MainActivity.kt` and `QuickNoteTileService.kt`. They are Android UI and intent plumbing
  with no logic to verify.
- `Sweeper.SweepCountsStaleTokens`: assumes a user listing without repetitions, which a
  collection query returns.
- `Sweeper.SweepCommitsOnlyForStale`: assumes a user listing without repetitions, as above.
