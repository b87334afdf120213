# Portal: a verified model

The portal is a small self-hosted server: admins upload app bundles, the apps use shared services (storage,
PDF rendering, email, forms, share links), schedules fire app tools, and an OAuth provider lets outside clients in.
This project models the parts of it that keep state under concurrency or do delicate arithmetic, and proves
what they promise for every input and every run. `dafny verify dfyconfig.toml` checks all of it.

| file | models | proved against |
|---|---|---|
| `Calendar.dfy`, `NextRuns.dfy` | the next run of a cadence | a match predicate on an absolute day timeline |
| `Schedules.dfy` | the ticker's passes, manual runs, pausing, interleaved | a rule that needs no stored next run |
| `OAuthGrants.dfy` | codes, refresh rotation, revocation, interleaved | one holder per code, conserved |
| `PendingRequests.dfy` | the caps on parked authorization requests | the newest survive, a flood hurts only itself |
| `StorageQuota.dfy` | locked writers and lock-free deletes | both caps, at every step of every interleaving |
| `Paths.dfy`, `TreeSwap.dfy` | keys and `replace_tree` on both backends, with injected faults | one abstract map update |
| `SlidingWindows.dfy`, `RateLimits.dfy`, `FormLimits.dfy`, `LoginLimits.dfy` | the pruned rolling-window limiters, clock readings out of order included | the same decisions over an unpruned history |
| `Refunds.dfy` | what a refund gives back | the operations that were really kept |
| `Bundles.dfy` | zip validation, extraction, zipping again through the storage keys | lossless extraction, a round trip |
| `Permissions.dfy` | services and origins over replaces and forms, one after the other and overlapping | a function of the whole history; exact conditions for outdated copies |
| `Shares.dfy` | share links, view caps counted by row id, the byte ceiling | invariants over all interleavings |
| `Sessions.dfy`, `LaunchTokens.dfy` | the lazy last-seen time, launch-token exchange | the true last use; one session per token |
| `RunTool.dfy` | reserving, rendering, delivering, refunding | conservation of slots and permits |
| `AuditRetention.dfy` | the two retention buckets | rank within the own bucket |
| `Basics.dfy` | an optional value, the size of a subset | |

How it is modelled. Each committed SQL statement, file-system operation or dictionary update under a lock is one
step; whatever the code does between two of them may be interleaved with the steps of others. A protocol is
`Apply` (one step of one participant; a step that is not enabled changes nothing) and `Run` (a list of steps from
a state); a theorem about `Run` speaks of every interleaving. Objects the program updates in place are classes whose
methods are proved equal to these functions. Random tokens and hashes are fresh numbers, blobs are bytes or sizes,
clocks are integers. Calls into libraries (WeasyPrint, SMTP, bcrypt, the file system, S3) are parameters that say
whether the call succeeded.

Where the code and what its comments promise part ways, the model follows the code:

* `replace_tree` says the rollback keeps the live bundle. It does unless the rollback fails too; then the clean-up
  removes the copy that was moved aside (`TreeSwap.RaisedKeepsOldTreeIff`).
* The app tool's `store` subtracts an object deleted between its two reads twice, and does not know the
  object cap (`StorageQuota.SplitStoreOverflowsIff`, `StorageQuota.StoreIgnoresObjectCap`).
* A refund pops the newest slot, which may be another operation's, so more operations than the limit can be kept
  in a window (`Refunds.RefundIsFaithfulIff`, `Refunds.RefundIsHarmlessIff`, `Refunds.ForeignRefundPassesLimit`).
* The limiters read their clock before they take their lock, so a check may come in with an older time than one already
  entered. The windows they keep to the limit are shorter by that lag (`RateLimits.WindowBoundIff`).
* An archive entry called `.` passes `_validate_zip` and cannot be extracted (`Bundles.AcceptedExtractsLosslesslyIff`,
  `Bundles.DotIsAcceptedAndFails`).
* The rebuilt bundle reads each file by its normalized key, so a file whose name ends in white space is left out or gets the
  bytes of its neighbour (`Bundles.RezipRoundTripIff`, `Bundles.TrailingSpaceIsLost`).
* `record_view` counts by row id. Where the database hands a deleted link's id to a new one (SQLite without AUTOINCREMENT, as
  for all tables but `user`), a view of the old link may be counted on the new one and pass the old one's cap
  (`Shares.ReusedIdServesTwice`, `Shares.AlwaysExactIff`). A purge deletes by row id too, and may take the new link for the dead one
  (`Shares.ReusedIdIsPurged`, `Shares.PurgesAlwaysSpareTheLiveIff`).
* The ticker selects the enabled schedules once, so one that is paused while an earlier one runs still fires
  (`Schedules.TickRule`).
* `delete_objects` may answer with keys it did not delete, and nobody reads the answer (`TreeSwap.BackendsAgree`).
* A replace merges the lists of the copy of the row it loaded before it extracted anything, so a form sent meanwhile is
  partly undone: a service or origin just refused comes back, one just allowed stays out, an extra is lost
  (`Permissions.RefusedServiceComesBack`, `Permissions.RefusedOriginComesBack`, `Permissions.ClearedOriginStaysOut`; the exact
  conditions are `Permissions.AgreeThroughoutIff`, `Permissions.ServiceRefusalIsFinalIff`, `Permissions.OriginRefusalIsFinalIff` and
  `Permissions.ExtraSurvivesIff`).
* An origin typed into the extras box while it is also requested is not kept as an extra
  (`Permissions.TypedExtraSurvivesIff`).
* `last_seen_at` trails the last use by at most a minute only while requests take at most 30 seconds from loading the row to
  committing it (`Sessions.TrailIsAMinuteIff`).
* Signing out closes the app sessions in one transaction and deletes the launch tokens in a later one, so a launch token still
  open at the first can be exchanged before the second; and neither stops an exchange that is past its checks
  (`LaunchTokens.SignOutIsFinalIff`, `LaunchTokens.AtOnceSignOutIsFinalIff`, `OAuthGrants.SignOutIsFinalIff`).
* `_normalize_key` strips white space before slashes and so is not idempotent (`Paths.NormalizeAgainIff`).

## Model

| member | source | states |
|---|---|---|
| `NextRuns.NextRunIsFirst` | portal/scheduler.py:58-104 | For every cadence and every `after`, the result is strictly later, matches the cadence, and no matching instant lies between; an error means an unknown frequency, or that nothing matches up to the end of year 9999. |
| `NextRuns.NextRunIsNamed` | portal/scheduler.py:58-104 | In the fields the caller gave: the result has the given hour and minute, weekday or day of the month (its last day if the month is shorter), each the nearest possible if out of range, with seconds zero; and no such time lies between. |
| `NextRuns.MatchesIff` | portal/scheduler.py:73-104 | An instant matches on the timeline exactly if those fields name it, with 1 January of year 1 a Monday. |
| `NextRuns.MonthlyIsFirst` | portal/scheduler.py:86-98 | The same for monthly cadences: days 29 to 31 clamp to the real month length, leap years and the December rollover included. |
| `NextRuns.WeeklyIsFirst` | portal/scheduler.py:79-84 | The same for weekly cadences: the modulo on weekdays reaches the first such weekday after `after`, today included only if its time has not passed. |
| `NextRuns.DailyIsFirst` | portal/scheduler.py:100-104 | The same for daily cadences. |
| `NextRuns.AtMostIsInstantOrder` | portal/scheduler.py:82-102 | Comparing date-times field by field is comparing instants on the timeline. |
| `Calendar.OrdinalIsMonotone` | portal/scheduler.py:53-55 | Later civil dates, and only those, have larger day numbers; day numbers name dates uniquely. |
| `Calendar.CivilOfOrdinal` | portal/scheduler.py:53-55 | Counting days one by one from 1 January of year 1, with month lengths and leap years, meets every date exactly at its closed-form day number. |
| `Calendar.OrdinalOfCivil` | portal/scheduler.py:53-55 | The converse: the date found by counting `n` days has day number `n`. |
| `Schedules.StoredStateMeaning` | portal/scheduler.py:152-163 | At every point of every history, clock readings in any order, the stored `next_run_at` is the first occurrence after the schedule was last looked at, paused or not. |
| `Schedules.TickRule` | portal/scheduler.py:184-202 | When a pass comes to a schedule it fires exactly when the schedule was enabled as the pass began and has an occurrence between that moment and the last look: the last before the pass while it has committed nothing, the last of all later on. It catches up once after a downtime and is not stopped by a pause in between. |
| `Schedules.NeverTwiceForOneOccurrence` | portal/scheduler.py:184-202 | No occurrence is the reason for two fires, over any history of passes, toggles and enablings on an ordered clock, with manual runs overlapping anything. |
| `Schedules.LooksOnlyForward` | portal/scheduler.py:155-163 | Once a pass has come to a schedule it selected, no later look is older than the start of that pass, except while a run is on. |
| `Schedules.ManualRunsDoNotDisturb` | portal/scheduler.py:168-181 | Leaving out all manual runs changes neither when the ticker fires nor the stored cadence state. |
| `Schedules.PassIsTick` | portal/scheduler.py:184-202 | The three events of a pass in a row are the effect the undisturbed pass has on a row. |
| `Schedules.RunsAreRecorded` | portal/scheduler.py:150-165 | Runs are recorded, cut to 300 characters, the ticker's at the time of its pass; nothing else changes the record, and a manual run changes nothing but it. |
| `Schedules.ScheduledRun.RunOne` | portal/scheduler.py:114-165 | One fire records the outcome, truncated, and advances the row only if asked; when the next run cannot be computed nothing is committed. |
| `Schedules.ScheduledRun.Toggle` | portal/admin.py:1261-1271 | Pausing keeps the next run; re-enabling recomputes it from now. |
| `Schedules.ScheduledRun.SetEnabled` | portal/mcp_server.py:1042-1051 | Enabling recomputes the next run from now, even of an enabled row; disabling keeps it. |
| `Schedules.RunDue` | portal/scheduler.py:184-202 | Undisturbed, the pass fires every due row once, leaves every other row as it was, and returns how many it fired. |
| `Schedules.VisitRow` | portal/scheduler.py:197-201 | One row of the pass: it fires exactly if it was selected and its time has passed, and no other row changes. |
| `OAuthGrants.OneGrantPerCode` | portal/oauth.py:289-366 | At every point of every interleaving the code row, the threads that claimed but have not issued, and the unrevoked token rows descending from a code number at most one in all. |
| `OAuthGrants.HoldersStep` | portal/oauth.py:289-432 | No step of any thread splits a grant or revives a spent one. |
| `OAuthGrants.OneAcceptedToken` | portal/oauth.py:368-384 | Two bearers accepted at one point of a run are the same if they descend from one code; while there is one, the code is gone and no exchange of its line is under way. |
| `OAuthGrants.CodeHonouredOnce` | portal/oauth.py:289-312 | No run honours an authorization code twice (section 4.1.2 of RFC 6749). |
| `OAuthGrants.RefreshHonouredOnce` | portal/oauth.py:331-366 | No run honours a refresh token twice (section 6 of RFC 6749). |
| `OAuthGrants.CodeExchanged` | portal/oauth.py:271-312 | An exchange in a row, whatever else is under way: a present code of this client is spent for one fresh pair of its user, good for an hour and thirty days; any other call changes nothing. |
| `OAuthGrants.RefreshExchanged` | portal/oauth.py:314-366 | A refresh in a row: an unrevoked row of this client is revoked for one fresh pair of its line; any other call changes nothing. |
| `OAuthGrants.ClaimSucceedsIff` | portal/oauth.py:289-366 | With anything between the read and the claim, the claim succeeds exactly if the code is still there, or the refresh token still unrevoked. |
| `OAuthGrants.RevocationIsFinal` | portal/oauth.py:386-403 | Revoking either token of a live pair ends the whole line of its code: nothing of it is ever live again. |
| `OAuthGrants.RevokeTouchesOnlyItsRows` | portal/oauth.py:386-403 | Revoking a secret marks the rows it belongs to and changes no other row, code or thread. |
| `OAuthGrants.LiveRowStaysIff` | portal/oauth.py:331-403 | One step leaves a live row untouched exactly unless it revokes one of its secrets, claims its refresh token, signs out its user, or prunes it as expired. |
| `OAuthGrants.LiveRowLastsIff` | portal/oauth.py:331-403 | Along any run a live row is untouched exactly as long as none of those four comes. |
| `OAuthGrants.IssuedPairIsAccepted` | portal/oauth.py:368-432 | An issued pair is accepted for an hour to the second, at every later point until one of its own four ends. |
| `OAuthGrants.CodeStaysIff` | portal/oauth.py:289-312 | A parked code stays exactly unless it is claimed, its user signed out, or it is pruned as expired. |
| `OAuthGrants.ParkedCodeIsSweptIff` | portal/oauth.py:271-312 | A code is swept away after its minute and not before. |
| `OAuthGrants.TokensBelongToTheConsent` | portal/oauth.py:331-432 | Every token ever issued under a consent carries that consent's client and user. |
| `OAuthGrants.SignOutIsFinalIff` | portal/sessions.py:274-292 | Sign-out leaves no token for good, short of a new consent, if and only if no exchange is between its claim and its insert. |
| `OAuthGrants.ClaimedExchangeOutlivesSignOut` | portal/oauth.py:289-312 | A run in which a claimed code is turned into a live token after its user was signed out. |
| `OAuthGrants.Provider.ExchangeAuthorizationCode` | portal/oauth.py:271-312 | Undisturbed, the method is its three transactions in a row, and succeeds exactly for a present code of this client. |
| `OAuthGrants.Provider.ExchangeRefreshToken` | portal/oauth.py:314-366 | Undisturbed, the method is its three transactions in a row, and succeeds exactly for an unrevoked row of this client. |
| `OAuthGrants.Provider.Issue` | portal/oauth.py:407-432 | Inserts one row with two fresh secrets and the two lifetimes. |
| `PendingRequests.PendingTable.Authorize` | portal/oauth.py:217-269 | Out-of-range parameters change nothing; otherwise the table is expired, capped per client, capped in all, and extended by one row. |
| `PendingRequests.PendingTable.DropOldest` | portal/oauth.py:246-254 | Exactly `n` rows of the scope go, none of them expiring later than one that stays. |
| `PendingRequests.CapsHold` | portal/oauth.py:234-268 | After a call, whatever the table held: the new row is in it, its client has at most 10 rows, the table at most 500, and all others are old unexpired rows. |
| `PendingRequests.CapsHoldForEveryone` | portal/oauth.py:234-268 | After every call of every history from the empty table, rows lost in between or not, each client has at most 10 rows and the table at most 500. |
| `PendingRequests.NewestSurvive` | portal/oauth.py:239-254 | A live row that a cap drops expires no later than any survivor under that cap. |
| `PendingRequests.BelowTheCapsNothingIsLost` | portal/oauth.py:234-268 | Below both caps a call drops the expired rows and no other, and parks the new request for a quarter of an hour. |
| `PendingRequests.OthersDisplacedOnlyAtTableCap` | portal/oauth.py:239-254 | A client's call drops another client's live row only when the table-wide cap is reached. |
| `PendingRequests.FloodDisplacesOnlyItself` | portal/oauth.py:234-268 | However often one client calls, everyone else's requests stay until they expire, if they leave its ten places free. |
| `StorageQuota.BytesStayBounded` | portal/api.py:970-995 | Every namespace stays within its bytes under every interleaving of puts, stores, wipes and lock-free deletes, under any lock map, if no delete splits the two reads of a store to the same key. |
| `StorageQuota.PutsKeepBothCaps` | portal/api.py:970-1020 | Without stores both caps hold with no hypothesis at all. |
| `StorageQuota.PutInIsolation` | portal/api.py:970-995 | A put is accepted exactly when both caps hold afterwards; a refused one changes nothing. |
| `StorageQuota.RefusedFor` | portal/api.py:952-987 | A put is refused for the object over 10 MB, else for an object too many afterwards, else for bytes over 100 MB afterwards. |
| `StorageQuota.StoreInIsolation` | portal/app_tools.py:369-390 | An undisturbed store writes the object, over an old one or not, exactly when it and the bytes afterwards fit; refused, it changes nothing. |
| `StorageQuota.ObjectAfter` | portal/api.py:970-1020 | One object through one step: written by a checked write that does not fail, removed by its DELETE or the wipe of its namespace, else untouched. |
| `StorageQuota.WipeInIsolation` | portal/storage_backend.py:155-170 | With nobody beside it, a wipe that comes to every object leaves the namespace empty, its lock free and all other namespaces alone. |
| `StorageQuota.SplitStoreOverflowsIff` | portal/app_tools.py:382-388 | With a delete of the same key between a store's reads, the namespace ends over its cap exactly when the true new total is over it by no more than the deleted object. |
| `StorageQuota.StoreIgnoresObjectCap` | portal/app_tools.py:382-388 | A store into a namespace full of objects adds one more exactly when the bytes fit. |
| `StorageQuota.WriteKeepsBytes` | portal/api.py:975-987 | A write that passed its check on an outdated listing still fits, because only deletes can have happened since. |
| `StorageQuota.Namespace.Put` | portal/api.py:952-987 | Which of the refusals applies, and that each leaves the old objects as they were. |
| `StorageQuota.Namespace.Usage` | portal/storage_backend.py:151-153 | The loop's sum is the total of the listed sizes. |
| `StorageQuota.Namespace.Delete` | portal/api.py:1018-1020 | Removes the key and no other; refuses exactly an absent one, and nothing on a store that does not say what was there. |
| `Paths.NormalizedKeyIsConfined` | portal/storage_backend.py:77-91 | A normalized key is a non-empty path of real segments, none of them `..`. |
| `Paths.NormalizeAgainIff` | portal/storage_backend.py:77-91 | Normalizing again changes nothing if and only if the key neither starts nor ends with white space. |
| `Paths.ListedIffBelow` | portal/storage_backend.py:405-408 | A listing prefix covers a key exactly when the key lies below it segment by segment. |
| `Paths.SiblingsAreDisjoint` | portal/storage_backend.py:93-96 | Prefixes of different namespaces of one depth never cover each other's keys. |
| `Paths.SplitOfJoin` | portal/storage_backend.py:85-91 | Splitting what was joined from slash-free segments gives the segments back. |
| `TreeSwap.DataDir.ReplaceTree` | portal/storage_backend.py:312-349 | For any set of failing operations: when it raises, what the live directory, staging and backup then are, and that nothing else changed. |
| `TreeSwap.OneFaultKeepsAWholeTree` | portal/storage_backend.py:312-349 | With at most one failing operation the live directory is the complete new tree on return and exactly as before on a raise. |
| `TreeSwap.RaisedKeepsOldTreeIff` | portal/storage_backend.py:333-349 | With any number of failures, a raising call keeps the old tree if and only if swap-in and rollback did not both fail. |
| `TreeSwap.FailedRollbackLosesTheTree` | portal/storage_backend.py:333-349 | With just those two failing, nothing at all is left of the live tree. |
| `TreeSwap.LocalRefines` | portal/storage_backend.py:312-349 | Seen as a map of blobs, a call that returns replaces everything under the prefix and touches nothing else. |
| `TreeSwap.SameDepthIsFlat` | portal/storage_backend.py:312-324 | Directories of one depth never contain each other, so the map view is well defined. |
| `TreeSwap.Bucket.ReplaceTree` | portal/storage_backend.py:486-502 | When it raises; a call that returns is the same map update but for stale keys the store refused to delete; wherever it stops, no key common to old and new is missing, nor any other prefix changed. |
| `TreeSwap.BackendsAgree` | portal/storage_backend.py:312-502 | From the same blobs, both backends end with the same blobs if and only if the store refused to delete no stale key. |
| `SlidingWindows.PacedBoundsEveryWindow` | portal/api.py:507-530 | If every entry came when at most `limit` entries were within the span before it, itself included, no closed window of that span holds more than `limit`, in whatever order the times were entered. |
| `SlidingWindows.DropExpired` | portal/api.py:522-523 | The popping loop drops the oldest entries up to the first inside the window, sorted or not. |
| `RateLimits.DecidesAsFullHistory` | portal/api.py:507-538 | Over every run of checks and refunds whose clock readings are at most `delay` old, a granted request fits the unpruned log in the window shortened by `delay` and a refused one does not in the window lengthened by it; in order, a check is refused exactly when the net slots in the closed window and the request together pass the limit. |
| `RateLimits.NoWindowOverLimit` | portal/api.py:699-733 | No closed window shortened by `delay` holds more net slots than the limit, in any run whose readings are at most `delay` old. |
| `RateLimits.WindowBoundIff` | portal/api.py:514-530 | That shortening is exact: all such runs keep the windows of a length to the limit if and only if length and delay together do not pass the window. |
| `RateLimits.RateLog.Check` | portal/api.py:507-530 | The answer and the user's new list are those of the specification; no other user's list changes. |
| `RateLimits.RateLog.Refund` | portal/api.py:726-733 | The loop takes off the newest `n` entries, or all, and no other user's. |
| `Refunds.RefundIsFaithfulIff` | portal/api.py:533-538 | From a log that lists the kept operations, a refund leaves one that does if and only if the slots popped carry the caller's time. |
| `Refunds.StaysWithinLimitIff` | portal/api.py:507-538 | Every continuation with own refunds keeps the operations of every closed window within the limit if and only if those so far are, and from every cutoff still inside the window the log shows at least the operations kept. |
| `Refunds.RefundIsHarmlessIff` | portal/api.py:726-733 | After a faithful run one refund keeps that promise if and only if the newest slot, which it pops, is of the refunded operation's time or has left the window. |
| `Refunds.OwnRefundsBoundKept` | portal/api.py:726-733 | If every refund gives back its own slots, the operations kept in any closed window shortened by `delay` are within the limit. |
| `Refunds.ForeignRefundPassesLimit` | portal/api.py:726-733 | A run in which one does not: the first operation fails one tick after the others were reserved, and one operation more than the limit is kept in one closed window. |
| `FormLimits.CollectionNeverChangesADecision` | portal/forms.py:82-100 | Over every run with readings at most `delay` old, an accepted submission finds fewer than ten accepted ones of its key in the window shortened by twice the delay, a refused one ten in the window lengthened by it; in order, one is refused exactly when ten are in the window, so pruning and key collection are invisible. |
| `FormLimits.NoWindowOverLimit` | portal/forms.py:82-100 | No closed window shortened by twice the delay holds more than ten accepted submissions of a key. |
| `FormLimits.CollectionDropsTheIdle` | portal/forms.py:92-99 | Collecting leaves, of the other keys, just those hit within the window, their hits untouched; no key is otherwise lost or changed. |
| `FormLimits.Limiter.Check` | portal/forms.py:82-100 | The method is the specification's step, collection included. |
| `LoginLimits.DecidesAsFullHistory` | portal/main.py:283-336 | While nothing has been evicted and readings are at most `delay` old, an allowed attempt finds network and account under their limits in the window shortened by twice the delay, and a refused one finds one of them reached; in order, it is refused exactly when the network has 30 net attempts in the window or the account 5 since its last success. |
| `LoginLimits.TablesStayBounded` | portal/main.py:293-328 | In every run, evictions or not, the lists stay within 5 and 30 entries and each table within its cap. |
| `LoginLimits.OldestGoIff` | portal/main.py:293-298 | A hit pushes other keys out exactly when its key is new and the table full, and then it is the oldest that go. |
| `LoginLimits.EvictsIff` | portal/main.py:301-328 | An attempt evicts exactly when it is allowed and an entry that the pruning has left is gone afterwards. |
| `LoginLimits.Limiter.ReserveAttempt` | portal/main.py:301-328 | The method, with its periodic sweep, is the specification's step. |
| `LoginLimits.Limiter.ClearFailures` | portal/main.py:331-336 | Drops the account's list and the network's newest hit, and nothing else. |
| `LoginLimits.SweepTable` | portal/main.py:315-319 | The sweep over all keys refreshes each of them once. |
| `LoginLimits.AddHit` | portal/main.py:293-298 | Evicts the oldest keys until there is room for a new one, then appends the hit. |
| `Bundles.ValidateZip` | portal/apps.py:535-588 | Accepts exactly the archives of safe, distinct, non-nesting file names within the limits; otherwise the verdict names the first entry that fails and the first test it fails. |
| `Bundles.ScanEntries` | portal/apps.py:551-582 | The pass stops only at an archive that is not acceptable, at its first fault, and otherwise knows every folded name. |
| `Bundles.AcceptedIff` | portal/apps.py:535-588 | In plain numbers: at most 1000 entries and 100 MB, every file below the destination, no symlink, at most 100 KB or fifty times its compressed size, no two of one path or nested. |
| `Bundles.AcceptedUnpacksToLittle` | portal/apps.py:575-582 | An accepted archive that tells its compressed sizes unpacks to at most fifty times their sum and 100 KB a file. |
| `Bundles.ExtractsIff` | portal/apps.py:622-636 | Any archive, accepted or not, extracts exactly when every path is relative, real and taken by the disk and none lies inside another. |
| `Bundles.AcceptedExtractsLosslesslyIff` | portal/apps.py:535-636 | An accepted archive extracts, on any disk no coarser than the validator's folding, to one file per entry with its bytes and nothing else, if and only if every file entry has a real path segment and the disk takes its path. |
| `Bundles.DotIsAcceptedAndFails` | portal/apps.py:535-636 | An archive whose one entry is called `.` is accepted and cannot be extracted. |
| `Bundles.ExtractedIsInstalled` | portal/apps.py:622-636 | The extracted tree has portable paths that neither coincide nor nest under the folding. |
| `Bundles.RezipRoundTripIff` | portal/apps.py:660-698 | An installed tree zipped in any listing order: building raises exactly for a file called `..` but for trailing white space; otherwise the archive passes validation, sizes and ratio aside, and extracts to what the storage found; and that is the same tree if and only if every file whose name ends in white space has beside it one of the same bytes under the name without. |
| `Bundles.TrailingSpaceIsLost` | portal/apps.py:660-698 | A bundle of a manifest, an entry page and a file `a `: the archive built from it has only the first two. |
| `Bundles.SpacedTreeIsInstalled` | portal/apps.py:535-588 | Such a tree can be installed under any folding that keeps the three names apart. |
| `Bundles.LookupStrips` | portal/storage_backend.py:77-91 | Looking a listed key up finds the file at the path whose last segment has lost its trailing white space, nothing, or refuses `..`. |
| `Permissions.UpToDateIsSequential` | portal/apps.py:785-797 | If every commit finds the row as its handler loaded it, overlapping handlers end where the same handlers one after the other end; so the results on sequential histories hold. |
| `Permissions.UndisturbedIsUpToDate` | portal/apps.py:826-942 | That is so if nothing commits between a load and its commit. |
| `Permissions.LoadThenCommit` | portal/apps.py:785-797 | A handler that loads and commits with nothing in between is undisturbed, and moves the row as it would alone. |
| `Permissions.ServicesAgreeAfterIff` | portal/apps.py:922-934 | A commit from an outdated copy keeps allowed at declared minus revoked if and only if it is safe for each service: for a replace that writes both lists, each service of its manifest is revoked in the copy exactly when it is in the row. |
| `Permissions.AgreeThroughoutIff` | portal/apps.py:1401-1418 | Along any history of overlapping handlers that agreement holds throughout if and only if every commit was safe. |
| `Permissions.ServiceRefusalIsFinalIff` | portal/apps.py:922-934 | A refused service stays out of every history whose forms do not tick it if and only if no handler under way loaded the row while the service was not revoked. |
| `Permissions.RefusedServiceComesBack` | portal/apps.py:826-934 | A run in which a service refused during a replace ends both allowed and revoked. |
| `Permissions.OriginAgreesAfterIff` | portal/apps.py:914-937 | A commit from an outdated copy keeps a requested, unrevoked origin allowed if and only if it is safe for it. |
| `Permissions.OriginThroughoutIff` | portal/apps.py:914-937 | Along any history of overlapping handlers that holds throughout if and only if every commit was safe. |
| `Permissions.OriginRefusalIsFinalIff` | portal/apps.py:914-937 | A refused origin stays out of every history whose forms do not grant it if and only if every handler under way has loaded it as revoked and not among the extras. |
| `Permissions.RefusedOriginComesBack` | portal/apps.py:826-937 | A run in which an origin refused during a replace is allowed again. |
| `Permissions.ClearedOriginStaysOut` | portal/apps.py:826-937 | A run in which an origin allowed during a replace ends requested, unrevoked and not allowed. |
| `Permissions.ExtraSurvivesIff` | portal/apps.py:916-921 | An allowed origin outlives every history of overlapping replaces that never name it if and only if it is an extra now and was one when each handler under way loaded the row. |
| `Permissions.App.WriteBack` | portal/apps.py:927-943 | The flush writes the columns that differ from what was loaded, and no other. |
| `Permissions.AllowedServiceIff` | portal/apps.py:922-934 | In any sequential history, and so in any without outdated commits (`Permissions.UpToDateIsSequential`): a service is allowed exactly when the latest manifest declares it and the last services form submitted while it was declared ticked it, or there was none. |
| `Permissions.ServicesAlwaysAgree` | portal/apps.py:1401-1418 | In any sequential history, and so in any without outdated commits (`Permissions.UpToDateIsSequential`): allowed services are the declared ones minus the revoked ones. |
| `Permissions.UngatedIff` | portal/apps.py:925-927 | However the handlers overlap, an app is ungated at the end exactly if it was at the start and no replace since declared a service; so it never becomes ungated. |
| `Permissions.FreshInstallIsGated` | portal/api.py:169-180 | However the handlers overlap, an app installed now may call a service exactly when it is allowed, for ever. |
| `Permissions.GrandfatheredIff` | portal/api.py:169-180 | An app from before gating may call everything until a replace declares a service, however the handlers overlap, and from then on what is allowed. |
| `Permissions.OriginsMoveAlone` | portal/apps.py:914-937 | In any sequential history, and so in any without outdated commits (`Permissions.UpToDateIsSequential`): the origin lists behave, origin by origin, as a three-bit machine of requested, allowed and revoked. |
| `Permissions.RequestedUnrevokedIsAllowed` | portal/apps.py:914-921 | In any sequential history, and so in any without outdated commits (`Permissions.UpToDateIsSequential`): a requested origin that is not revoked is allowed. |
| `Permissions.RefusedOriginStaysOut` | portal/apps.py:1340-1369 | In any sequential history, and so in any without outdated commits (`Permissions.UpToDateIsSequential`): a requested origin left unticked and untyped stays out through every later run until a form ticks or types it. |
| `Permissions.TypedExtraSurvivesIff` | portal/apps.py:916-921 | In any sequential history, and so in any without outdated commits (`Permissions.UpToDateIsSequential`): a typed origin survives every run of replaces that never name it if and only if it was not requested when typed. |
| `Permissions.TypedButRevokedLastsOneReplace` | portal/apps.py:914-937 | In any sequential history, and so in any without outdated commits (`Permissions.UpToDateIsSequential`): an origin can be allowed and revoked at once; the second replace that asks for it puts it out. |
| `Permissions.App.Replace` | portal/apps.py:914-937 | The in-place update is the replace step of the specification. |
| `Permissions.App.UpdateServices` | portal/apps.py:1401-1418 | The handler, with its loop, is the services step of the specification. |
| `Permissions.App.UpdateNetwork` | portal/apps.py:1340-1369 | The handler, with its loop, is the network step of the specification. |
| `Permissions.DedupeLoop` | portal/apps.py:1355-1361 | The `seen` loop keeps the first of each entry, in order. |
| `Shares.CeilingHolds` | portal/shares.py:171-200 | Under every interleaving of creations, views, revocations, purges and file deletions, the PDF files of a user's rows never weigh more than the ceiling. |
| `Shares.ReadCovers` | portal/shares.py:119-129 | While the measuring loop runs, what it has counted bounds the rows it has read, whatever is deleted meanwhile. |
| `Shares.InsertFits` | portal/shares.py:176-198 | Inserting the row for a measured and written file keeps its owner within the ceiling and concerns nobody else. |
| `Shares.OnceRefusedAlwaysRefused` | portal/shares.py:225-248 | A link that is refused once, for whatever reason, is refused for ever after. |
| `Shares.LookupAdmitsIff` | portal/shares.py:225-248 | A link is served exactly while its row is there, unrevoked, not past its expiry and below its cap, if it has one. |
| `Shares.ServedIff` | portal/shares.py:171-248 | Over its whole life in any run a link is served up to the time asked for and no longer: a week by default, at least a minute, at most ninety days; if it is still there, unrevoked and below the cap asked for. |
| `Shares.EveryLinkWasMade` | portal/shares.py:132-200 | Every link a run ends with was made by one of its steps, so `Shares.ServedIff` speaks of them all. |
| `Shares.LinkStepIs` | portal/shares.py:251-355 | One link through one step: deleted, counted on, revoked, or as it was. |
| `Shares.DeadArePurged` | portal/shares.py:323-355 | A purge, with anything between its two steps, leaves none of the links that were past their expiry, revoked or used up when it looked. |
| `Shares.CreationInIsolation` | portal/shares.py:158-200 | A creation nobody disturbs changes nothing if the PDF is over 10 MB or the user's files would pass 200 MB, and otherwise adds one row and its file. |
| `Shares.GrantedViewsAreBounded` | portal/shares.py:251-289 | However many viewers passed the lookup at once: in a run in which no new link takes a row id that a viewer in flight holds, every counter equals the views granted and no token ever gets more than its cap, deleted links included. |
| `Shares.CountersStayExactIff` | portal/shares.py:264-281 | From any reachable state the counters stay exact in every run without a further such clash if and only if they are exact now and no viewer in flight holds an id that another link has taken over and would count. |
| `Shares.ReusedIdServesTwice` | portal/shares.py:251-289 | A run with reused ids in which a link with a cap of one is served twice and the next link is used up unseen. |
| `Shares.AlwaysExactIff` | portal/models.py:267-294 | Counters and caps hold in every run if and only if the database never reuses a row id. |
| `Shares.PurgesSpareTheLiveIff` | portal/shares.py:323-355 | From any reachable state purges delete none but refused links, along every run in which no new link takes an id a purge is about to delete, if and only if no live link has such an id now. |
| `Shares.ReusedIdIsPurged` | portal/shares.py:323-355 | A run with reused ids in which a purge deletes a live link. |
| `Shares.PurgesAlwaysSpareTheLiveIff` | portal/models.py:267-294 | Purges are harmless in every run if and only if the database never reuses a row id. |
| `Shares.ShareStore.PurgeExpired` | portal/shares.py:323-355 | Exactly the owner's links that the handler would refuse go, with their files as far as these can be deleted; everything else stays. |
| `Shares.ShareStore.DeleteShareFiles` | portal/shares.py:298-309 | The loop removes exactly the named files, but for those it does not trust or cannot delete. |
| `Shares.ShareStore.PdfShareBytes` | portal/shares.py:119-129 | The loop's sum is the bytes of the user's PDF rows. |
| `Shares.ShareStore.CreatePdfShare` | portal/shares.py:167-200 | Refuses exactly for size or for the ceiling after the purge; otherwise adds one serveable row with its file, within the ceiling. |
| `Shares.ShareStore.RecordView` | portal/shares.py:251-289 | Whether or not the row is still there, the UPDATE counts on the rows of that id whose cap allows it, and the view is applied exactly if there is one; without a cap a missing row is an error. |
| `Shares.ShareStore.RevokeLink` | portal/shares.py:292-295 | Sets the mark on that row alone. |
| `Sessions.StoredTrailsTheTruth` | portal/sessions.py:118-131 | If requests are done within `delay`, the stored time never runs ahead of the true last use and trails it by at most the larger of a minute and twice the delay. |
| `Sessions.TrailIsAMinuteIff` | portal/sessions.py:118-131 | The minute holds in every run if and only if requests are done within 30 seconds. |
| `Sessions.AdmittedWasUsed` | portal/sessions.py:52-59 | An admitted session was truly used within the idle limit and is at most 30 days old, under every interleaving. |
| `Sessions.RefusedWasIdle` | portal/sessions.py:108-115 | A session refused for idleness had no finished use for the limit less that trail. |
| `Sessions.UndisturbedRequest` | portal/sessions.py:108-131 | A request in a row is admitted exactly if the session is unrevoked, at most 30 days old and at most the idle limit unseen, and writes the time exactly if admitted after more than a minute. |
| `Sessions.OwnStepIs` | portal/sessions.py:108-131 | What each step of a request asks for, whatever has happened since the one before. |
| `Sessions.RevokedIsFinal` | portal/sessions.py:77-86 | From any state a revocation sets the mark, which stays whatever older requests do, and a request that comes from then on is never admitted. |
| `Sessions.NeverAdmittedIff` | portal/sessions.py:77-86 | On a revoked row nobody is ever admitted at a place if and only if nobody is there, or a request that loaded the revoked mark or is already expired. |
| `Sessions.RevokedRowRests` | portal/sessions.py:118-131 | With no older request in flight, no lazy write touches the revoked row. |
| `Sessions.SessionRow.Authenticate` | portal/sessions.py:108-131 | One undisturbed request admits exactly a live session and writes what the four steps write. |
| `LaunchTokens.OneSessionPerToken` | portal/api.py:424-453 | However many exchanges of a token run at once, at most one session is minted, and then the token is consumed and no exchange of it is under way. |
| `LaunchTokens.SessionBelongsToTheLaunch` | portal/api.py:434-453 | A session is only minted for the user and app of the launch, for a request within the token's minute. |
| `LaunchTokens.Exchanged` | portal/api.py:386-453 | An exchange in a row, whatever else is under way: an unconsumed token is spent, and becomes a session of its user exactly if it is in time, for this app, and the user exists. |
| `LaunchTokens.OwnStepIs` | portal/api.py:424-453 | What each step of an exchange asks for, whatever has happened since the one before. |
| `LaunchTokens.TokenAfter` | portal/api.py:424-453 | One launch token through one step: spent by the exchange that claims it, gone with its user or in the sweep, else as it was. |
| `LaunchTokens.SessionAfter` | portal/sessions.py:175-196 | One app session through one step: closed by a sign-out of its user, gone with its user, else as it was. |
| `LaunchTokens.LaunchIsSweptIff` | portal/sessions.py:343-358 | A launch token is kept for a day and swept after that. |
| `LaunchTokens.SignOutIsFinalIff` | portal/sessions.py:274-292 | With anything in between its two transactions, sign-out leaves no open app session for good, short of a new launch, if and only if at the first of them the user has no open token that could still pass and no exchange that can still mint. |
| `LaunchTokens.AtOnceSignOutIsFinalIff` | portal/sessions.py:274-292 | With nothing in between, if and only if no exchange of the user is past its last check. |
| `LaunchTokens.Portal.SessionExchange` | portal/api.py:386-453 | Undisturbed, the handler is its three transactions in a row and succeeds exactly for an unconsumed, unexpired token of this app and an existing user. |
| `LaunchTokens.Portal.RevokeAllAppSessions` | portal/sessions.py:175-196 | The loop revokes exactly the user's open rows and returns their number. |
| `RunTool.Tools.Execute` | portal/app_tools.py:286-453 | An execution that raises leaves the logs holding the slots they held; one that returns adds one PDF slot, or one email slot per recipient; the permit is back either way. |
| `RunTool.Tools.TryBlock` | portal/app_tools.py:327-440 | However the block ends, its two flags say exactly which slots the logs have gained. |
| `RunTool.Tools.GiveBack` | portal/app_tools.py:441-445 | The slots the flags say were reserved come off again, and only those. |
| `RunTool.Tools.Deliver` | portal/app_tools.py:334-440 | When each kind delivers, and which email slots it then holds. |
| `RunTool.Tools.Render` | portal/api.py:551-558 | The permit count is the same afterwards on every path, the one without a free permit included. |
| `RunTool.SlotsAreConserved` | portal/app_tools.py:327-453 | Under every interleaving the net reservations are those of executions that returned and of those still running; permits and renders under way make up the two. |
| `RunTool.RenderStartsIff` | portal/api.py:551-558 | In every run an execution that asks for the render permit gets it exactly when fewer than two renders are under way. |
| `RunTool.FailuresCostNothing` | portal/app_tools.py:327-445 | After any number of executions that all raised, the full limit is free again. |
| `RunTool.OneExecution` | portal/app_tools.py:327-453 | One execution after any history: refused, it only leaves a refused check; granted, its slots count for good if it returns and are given back if it raises. |
| `AuditRetention.Prune` | portal/audit.py:283-305 | Each bucket whose delete succeeds is trimmed to its newest rows. |
| `AuditRetention.NthNewest` | portal/audit.py:292-297 | The cutoff row has exactly `keep` newer rows in its bucket; there is none exactly when the bucket fits. |
| `AuditRetention.PruneKeepsTheNewest` | portal/audit.py:283-305 | A row survives exactly if it is among the newest of its own bucket, up to that bucket's cap. |
| `AuditRetention.OtherBucketDoesNotMatter` | portal/audit.py:290-299 | Tables that agree on a bucket keep the same rows of it. |
| `AuditRetention.BucketsFit` | portal/audit.py:283-305 | No bucket is left with more rows than its cap. |

## Left out

- Schedules.TickRule: clock readings lie before year 9999, so that a next run always exists (the overflow itself is in `NextRuns.NextRunIsFirst`); naive date-times and time zones are not modelled, all are UTC. A row deleted during a pass, and a process that dies while a tool runs (the next start fires it again), are not modelled.
- Schedules.NeverTwiceForOneOccurrence: passes, toggles and enablings are committed in the order of their clock readings; the rule itself needs no such order.
- Permissions.AllowedServiceIff: for histories in which no handler commits on an outdated copy, because it is false otherwise. An app deleted while a handler holds its row, and the limit on the number of requested origins, are not modelled.
- StorageQuota.BytesStayBounded: assumes that no delete takes an object between the two reads of a store to the same key, because the property is false otherwise; `StorageQuota.SplitStoreOverflowsIff` says exactly when. A listing is one step. Locks are taken at once or not at all: waiting is not modelled, nor the CRC behind the lock numbers.
- TreeSwap.OneFaultKeepsAWholeTree: faults are exceptions; a process that dies between the two renames is not modelled. Removing a leftover staging directory under the fresh random name is left out because there is none.
- TreeSwap.LocalRefines: assumes no directory of the layout lies inside another (`TreeSwap.SameDepthIsFlat` proves it for `apps/<slug>`), and that the clean-up of temporary directories succeeds. The bucket-wide S3 prefix is not modelled; the order of uploads is any order without duplicates.
- LoginLimits.DecidesAsFullHistory: assumes that no entry was evicted, since an evicted key forgets its attempts; the bounds need no such assumption. Times are whole ticks of any length, so "newer than the cutoff" is "at least cutoff + 1". The slack of twice the delay, here and in `FormLimits`, is not shown to be the least.
- Refunds.StaysWithinLimitIff: for clock readings in order; `Refunds.OwnRefundsBoundKept` allows for late ones.
- Bundles.ValidateZip: the folding (NFC and lower case) is an arbitrary function on path segments, so nothing about Unicode is proved; lower-casing a folder name again is taken to change nothing. Corrupt members and the manifest's own checks are not modelled.
- Bundles.RezipRoundTripIff: the blobs listed are all still there when read, the tree is on a case-sensitive disk or in a bucket, and the bundle's own directory name neither begins with white space nor holds `..`.
- Sessions.StoredTrailsTheTruth: stated for requests bounded by `delay`, because without a bound a stalled request can write back any old time.
- OAuthGrants.SignOutIsFinalIff: the DELETEs of a user's tokens and codes are one step, as on SQLite; a PostgreSQL transaction at READ COMMITTED lets other commits fall between the two.
- Shares.GrantedViewsAreBounded: a view is granted when its UPDATE applies; that the file is then sent, and that the app is enabled, is left to the viewer's giving up. Names of files are tokens.
- RunTool.Tools.Execute: the quota check, the share's own steps and the send are one outcome each here; `StorageQuota.dfy` and `Shares.dfy` model the first two in full. Exceptions that are not ordinary ones (a killed worker) are not refunded by the code and not modelled.
- OAuth scopes and resource indicators, PKCE and the expiry checks made by the `mcp` library before it calls the provider; the consent page's handling of a parked request, so a line of tokens starts at the code.
- The per-address limiter of `portal/oauth.py` (`_IPRateLimiter`): the same window argument as the others, without refunds.
- Which admin may demote or delete whom (`portal/admin.py`), API tokens, per-user access rows, branding, health, exports: thin handlers that would only add easy members.
- HTTP routing, templates, cookies, content-security policies, the manifest validators and other single-branch string checks.
- `_validate_key` and the template context of `run_tool`: string checks; a key that fails is one of the outcomes of `RunTool.World`.
