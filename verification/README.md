# Sentinel: response and ingestion, verified

A Dafny model of the parts of Sentinel that keep state over an unbounded run: the leases behind HAProxy blocks, the
incremental readers that feed events in, the login and rate windows, the adaptive score that decides what happens to
an event, and the incident log. `dafny verify dfyconfig.toml` checks everything.

## What is modelled

**Block leases** (`ActionStore`, `LeaseProtocol`, `LeaseSafety`, `LeaseExpiry`, `LeaseSweep`, `LeaseListing`,
`ActionLifecycle`).
Two stores that cannot commit together: the `actions` table and the HAProxy runtime ACL. `LeaseProtocol` is a machine of
atomic steps (one statement, one runtime command, one environment event); its program counter is the lock holder's.
A command may fail before or after taking effect, a crash may come between any two steps, the clock may advance, and
anyone may take entries out of the ACL. The class `ActionLifecycle.Lifecycle` follows the code
statement by statement; its ghost field records every atomic step, and `Valid()` says that the record is a run of the
machine, so the theorems about all runs are theorems about its methods.

**Readers** (`ByteLines`, `ReaderSpec`, `LogText`, `RoundRobin`, `BoundedReader`; `DockerScan`, `DockerEvents`,
`DockerCursor`, `DockerLoss`). The reference is one function of the whole byte stream: its newline-terminated lines
and its unfinished tail. The log reader keeps a history of epochs (one life of one file under one path); the Docker
client scans the lines of a reply and keeps the trace of its calls.

**Windows and sessions** (`RateBudgets`, `LoginWindow`, `WebSessions`, `Principals`). Times are reals. The classes carry the
trace of their calls, and the bounds are about whole traces.

**Scores and decisions** (`BoundedLists`, `DeviceProfiles`, `TrustEngine`, `Analyzers`, `RiskEngine`, `RiskMonotone`,
`PolicyEngine`, `Decision`). A device's profile is a function of everything ever observed of it.

**Incidents** (`Incidents`, `IncidentRuns`). Store calls are atomic; operators may act between the service's lookup
and its write.

## Assumptions

- Only Sentinel adds entries to the ACL. A runtime command takes effect before its call returns, or never.
- A reply to `show acl` that parses lists the ACL exactly. The runtime client reads a reply once
  (collectors/haproxy/runtime.py:22), so a long listing may be cut short. Entries behind the cut are then missed, and a
  line cut inside an address can still parse and invent another one, as 10.0.0.1 out of 10.0.0.12. In the machine only
  the step `Show` relies on this, in the class the answer of `Contains`: a block that reads an invented entry twice is
  confirmed without being enforced (`LeaseListing.InventionConfirms`). Write-ahead does not rely on it but for the
  read-back after a deletion (`LeaseListing.OnlyDeletionsMatter`).
- The lease theorems on completeness count a deletion that is answered with text as failed, as the code does; the
  safety theorems do not depend on what a deletion answers.
- Clocks do not go back. ISO 8601 texts of one zone are ordered as their times, so expiries are integers here.
- A row's id is its position in the table; rows are never deleted.
- One event loop processes events, so at most one event is between the incident lookup and the incident write.
- SHA-256 is injective on the keys in use; TOTP is an arbitrary function of time; a token is arbitrary text.
- JSON decoding, container inspection and lower-casing are arbitrary functions.

## What turned out

Places where the code does less than it seems to, each proved with its exact condition or an example.

- **A live lease can be cut.** `reconcile` compares the texts of addresses, the ACL their canonical form. Two spellings
  of one address, one lapsed and one live, are enough (`LeaseExpiry.StrayRun` is a run from the empty state).
  `LeaseExpiry.SweepCutsLiveIff` says that nothing else is. Events that come in through `/events` are canonical
  (core/event_security.py:25-28) and safe (`LeaseExpiry.SpelledAlikeIsNotStray`); in-process collectors do not
  canonicalize.
- **A wrong listing** can leave an address enforced without a record, but only when it misses an entry after a deletion,
  and then only if the row that ends was its last lease (`LeaseListing.MissedAfterExpiryIff`, `MissedAfterReleaseIff`). Over
  any run with any other misses and inventions, write-ahead holds; each miss before a block can list the address once more
  (`LeaseListing.OnlyDeletionsMatter`, `LeaseListing.CopiesAreReached`).
- **Docker events can be lost.** `read_events` records a key before it returns the event, and returns nothing when the
  stream breaks or an event cannot be enriched. The next call takes the event for a duplicate, and may move the cursor
  past it (`DockerCursor.BrokenStreamLosesEvent`). `DockerCursor.RunKeepsPromiseIff` says that nothing else loses one, and
  `DockerLoss.CanLoseIff` which memories and feeds are in danger. The comment at collectors/docker/collector.py:220 says
  that duplicates advance the cursor too; in the code they do not.
- **A budget of `limit` calls per 60-second window lets up to 2 * limit - 1 calls through in some 60 seconds**, and never
  more (`RateBudgets.IntervalBound`, `RateBudgets.IntervalBoundIsTight`).
- **Metadata is never learned.** Client attributes taken from metadata are compared with the learned lists but never
  added to them, so a safe device stays suspicious for good (`Analyzers.MetadataIsNeverLearned`).
- **A listing can lower the score** if the ceiling is below 10 (`RiskMonotone.LowCeilingLowers`), which the configuration
  allows.
- **The highest scores can be answered more mildly than middle ones**: with challenges on and blocking by threshold off,
  the challenge band is challenged and everything above it allowed (`PolicyEngine.ThresholdsAreMonotoneIff`).
- **Reopening a closed incident** can give a source and component two open incidents, whether the other one is there
  already or the service is about to create it (`IncidentRuns.ReopeningBreaksIt`). `IncidentRuns.AlwaysSingleIff` and
  `IncidentRuns.CreatesTwinOnlyIfReopened` say that nothing else can.
- **A code of six digits that are not ASCII** makes the login raise instead of counting as a failed attempt
  (`WebSessions.WebSessionManager.Login`).

## Model

| member | source | states |
|---|---|---|
| ActionStore.PendingLists | database/store.py:480-488 | The pending actions are exactly the rows applied or applying other than allow, each once, in id order. |
| LeaseProtocol.RunKeepsInv | actions/lifecycle.py:14-76 | Every run of steps, failures and crashes keeps the invariant: enforced addresses are on record, ACL entries are single, and what each program counter relies on holds. |
| LeaseSafety.WriteAheadSafety | core/service.py:123-138 | In every state of every run, an address in the ACL has a HAProxy block row that is applied or applying. |
| LeaseSafety.SingleEntry | actions/haproxy/adapter.py:37-40 | In every state of every run the ACL holds each address at most once, although adding does not check for duplicates. |
| LeaseSafety.SingleEnding | database/store.py:495-504 | A row is never deleted or re-addressed; once revoked or expired it never becomes pending again, in any continuation of the run. |
| LeaseSafety.ExpiryKeepsLiveLeases | actions/lifecycle.py:57-68 | In every state of every run an expiry step leaves the copies of an address as they are, if a lease of it has an expiry after the present time and leases of one address are spelled alike. |
| LeaseSafety.CanonicalIsAlike | core/event_security.py:25-28 | Leases of canonical addresses are spelled alike. |
| LeaseExpiry.SweepCutsLiveIff | actions/lifecycle.py:50-76 | Some sweep can cut a live lease if and only if one lease of the address has an expiry after now, and another, with every lease of its own text, has none or an earlier one. |
| LeaseExpiry.SpelledAlikeIsNotStray | core/event_security.py:25-28 | Rows that hold canonical addresses never meet that condition. |
| LeaseExpiry.StrayExample | actions/lifecycle.py:60-68 | A concrete table of two spellings that meets it. |
| LeaseExpiry.StrayRun | actions/lifecycle.py:50-76 | A run from the empty state, two confirmed blocks and a sweep, that cuts a live lease. |
| LeaseSweep.AttemptedIff | actions/lifecycle.py:54-70 | With alike spellings a sweep tries a lease exactly when every lease of its address has no expiry or one that is not after now. |
| LeaseSweep.LaterLeaseStays | actions/lifecycle.py:57-68 | Whatever fails, a lease with an expiry after now stays, and with leases of its address spelled alike so do the copies. |
| LeaseSweep.EndedLeasesGo | actions/lifecycle.py:57-73 | If no lease of an address has an expiry after now and no command for it failed, no copy is left and its leases are no longer applied but expired. |
| LeaseSweep.SweepComplete | actions/lifecycle.py:50-76 | If every command succeeds, the ACL keeps exactly the entries with a live lease, every lease without one is expired, and no other row changes. |
| LeaseSweep.SweepIsolated | actions/lifecycle.py:69-76 | What a sweep does to an address and its rows does not depend on failures at other addresses. |
| LeaseListing.OnlyDeletionsMatter | actions/haproxy/adapter.py:14-41 | Over every run whose listings may miss or invent any entry, except after a deletion, each enforced address is on record and listed at most once plus once for every miss before a block. |
| LeaseListing.CopiesAreReached | actions/haproxy/adapter.py:37-38 | For every number of misses before a block some run lists an address that many times more. |
| LeaseListing.InventionConfirms | actions/haproxy/adapter.py:20-24 | An entry invented twice makes the row of a block confirmed whose address is not in the ACL. |
| LeaseListing.MissedAfterExpiryIff | actions/lifecycle.py:70-73 | Missing an entry after an expiry's deletion, in any state such a run reaches, leaves the address enforced without a record if and only if the expired row was its last lease. |
| LeaseListing.MissedAfterReleaseIff | actions/lifecycle.py:16-25 | After a release's deletion, the run that goes on from the miss revokes the rows of this text and ends with the address enforced without a record if and only if no lease spells it differently. |
| ActionLifecycle.Lifecycle.SafeAtEveryPoint | core/service.py:122-151 | After every atomic step of any use of the class, hence wherever a crash strikes, the state is one of a run of the machine and each enforced address is on record. |
| ActionLifecycle.ParseListing | actions/haproxy/adapter.py:16-23 | The loop fails if and only if some line is malformed or lists no address; else an address is found if and only if some line lists it, in canonical form. |
| ActionLifecycle.Lifecycle.Contains | actions/haproxy/adapter.py:14-24 | The answer is right about the ACL, or an exception, which is counted as a failed command. |
| ActionLifecycle.Lifecycle.BlockAddress | actions/haproxy/adapter.py:36-41 | A block succeeds if and only if no command for its address failed; then the address is in the ACL, and no other entry changes either way. |
| ActionLifecycle.Lifecycle.InsertAddress | actions/haproxy/adapter.py:37-39 | Adding goes on only after a blank reply, whether or not the command took effect; every other entry stays. |
| ActionLifecycle.Lifecycle.UnblockAddress | actions/haproxy/adapter.py:59-61 | A deletion succeeds if and only if no command failed; then no copy of the address is left, and no other entry changes either way. |
| ActionLifecycle.Lifecycle.Respond | core/service.py:122-151 | For every action and setting, column by column, the row that is stored, or the exception. A block is confirmed if and only if no command failed, else its row stays applying; nothing else touches the ACL. |
| ActionLifecycle.Lifecycle.EnforceBlock | core/service.py:124-138 | Intent, block, confirmation: on success an applied block row with the expiry and the address once in the ACL, else the same row still applying. |
| ActionLifecycle.Lifecycle.Unblock | actions/lifecycle.py:14-26 | However the address is spelled, on success exactly the HAProxy block rows under its canonical text that are applied or applying become revoked, every other row is as it was, and the address is gone; on failure no row changes. |
| ActionLifecycle.Lifecycle.FinishLeases | actions/lifecycle.py:19-25 | The loop revokes exactly the pending HAProxy block rows with this text and leaves every other row. |
| ActionLifecycle.Lifecycle.Revoke | actions/lifecycle.py:28-48 | When a row is missing, refused or revoked, exactly which rows and entries change: a missing one changes nothing, a refusal can only have taken out copies of the row's own address, and a row that was not pending is marked without touching the ACL. |
| ActionLifecycle.Lifecycle.Reconcile | actions/lifecycle.py:50-76 | In terms of the columns: a row changes only to expired, and only if it is an applied or applying HAProxy block without an expiry after now; no copy goes while a lease of the address, alike spelled, ends later; without failures for it an address whose leases have all ended is gone and they are expired. |
| ByteLines.LinesUnique | core/bounded_reader.py:72-95 | The split of a byte stream into newline-terminated lines and an unbroken tail is unique. |
| ByteLines.LinesAppend | core/bounded_reader.py:72-95 | Cutting a stream anywhere: the lines of the rest continue the tail of what came before. |
| ReaderSpec.ChunkStep | core/bounded_reader.py:78-95 | What one chunk adds to the delivered and the oversized lines of the bytes before it. |
| ReaderSpec.EmittedAre | core/bounded_reader.py:83-93 | Every complete line that fits the size limit is delivered as its text, without its newline and one carriage return before it, and delivered and discarded lines together are all lines. |
| LogText.TextsAreRead | core/bounded_reader.py:72-95 | Of a file of texts, each ended by a newline or by a carriage return and a newline, exactly the texts whose lines fit are delivered, in order, and the others are counted. |
| LogText.EveryFileHoldsTexts | core/bounded_reader.py:72-95 | Every file is such a file of texts and an unfinished line. |
| ReaderSpec.ReadLineIs | core/bounded_reader.py:73-75 | A bounded readline returns the bytes at the offset, at most n, ending at the first newline, the bound or the end of the file. |
| BoundedReader.Advance | core/bounded_reader.py:78-95 | The branches of the loop body turn the partial or discard state of the bytes so far into that of the bytes with the chunk, deliver a line exactly if the chunk ends one that fits, as its text, and count a discard once. |
| BoundedReader.BoundedLogReader.Create | core/bounded_reader.py:16-39 | Raises exactly if a limit is not positive; else the paths are the distinct ones in their first order. |
| BoundedReader.BoundedLogReader.Drain | core/bounded_reader.py:72-95 | The inner loop reads contiguous bytes from where the file was left, within the budgets, and at least one if there are unread ones. |
| BoundedReader.BoundedLogReader.TakeChunk | core/bounded_reader.py:73-95 | One chunk keeps the fields equal to their specification over the whole history. |
| BoundedReader.BoundedLogReader.Visit | core/bounded_reader.py:58-97 | A visit begins a new epoch exactly if the file was replaced or cut below the offset, reads contiguous bytes of one epoch, and reads at least one if there are unread ones. |
| BoundedReader.BoundedLogReader.ReadIncremental | core/bounded_reader.py:45-98 | One call delivers exactly the new fitting lines of what it consumed, keeps to its line and byte budgets, advances every visited file, leaves all others, and goes on where the last call stopped. |
| BoundedReader.SameBytesSameReading | core/bounded_reader.py:72-95 | Readers that consumed the same bytes of an epoch, through any calls and budgets, have delivered and discarded the same lines and remember the same. |
| BoundedReader.DeliveredTexts | core/bounded_reader.py:72-95 | What any reader has delivered from a file are the texts written in the bytes consumed whose lines fit, and it has counted the others. |
| BoundedReader.PartialIsBounded | core/bounded_reader.py:83-95 | The remembered part of an unfinished line never exceeds the size limit, and is empty while discarding. |
| BoundedReader.AppendOnlyStaysPrefix | core/bounded_reader.py:67-77 | In a file that only grows, the consumed bytes stay a prefix of the file. |
| BoundedReader.BoundedLogReader.ConsecutiveCalls | core/bounded_reader.py:51-59 | Among as many consecutive calls as there are paths, each with a positive limit of its own, every path is read on, whatever happens to the files between the calls. |
| BoundedReader.BoundedLogReader.ReadGrowing | core/bounded_reader.py:45-98 | Over any calls with any limits, what is delivered from a file that only grows are the fitting texts of a prefix of it; a reader of this path alone gets on by a byte per call or past all that was there. |
| BoundedReader.BoundedLogReader.ReadAll | core/bounded_reader.py:45-98 | Called often enough on a file at rest, a new reader of it returns exactly the texts written in it whose lines fit, all of them if all fit, in order and each once, and counts the others, however limits and budgets cut the calls. |
| RoundRobin.EveryEntryVisited | core/bounded_reader.py:53-57 | Calls that go round a list and each visit at least one entry reach every entry within as many calls as entries. |
| DockerScan.ScanIsFresh | collectors/docker/collector.py:165-181 | A batch has at most the cap of events, with new and pairwise different keys, and exactly those are recorded. |
| DockerScan.ScanCovers | collectors/docker/collector.py:132-183 | Every event read before the batch was full is recorded. |
| DockerScan.SameKeyIff | collectors/docker/collector.py:165-174 | Two events count as the same if and only if actor, action and moment are the same, whether it is given in seconds or in nanoseconds. |
| DockerEvents.DockerEventsClient.TakeLine | collectors/docker/collector.py:135-181 | One line is skipped, recorded and added, or raises, as one step of the scan. |
| DockerEvents.DockerEventsClient.DrainBuffer | collectors/docker/collector.py:132-181 | The loop over a buffer takes off its complete lines and leaves its tail, or stops at the cap or an exception. |
| DockerEvents.DockerEventsClient.Prune | collectors/docker/collector.py:188-191 | Above 1000 keys exactly half of them are kept, else all. |
| DockerEvents.DockerEventsClient.DrainStream | collectors/docker/collector.py:127-183 | The buffer loops give the scan of the lines of the whole stream, however it was cut into chunks. |
| DockerEvents.DockerEventsClient.ReadEvents | collectors/docker/collector.py:86-235 | One call as a relation of cursor, recorded keys and whole stream, with every exception. No two events returned are the same; the cursor moves only with a returned batch, to the second in which the time of its last event lies, or to the end of the interval if that is zero. |
| DockerCursor.CallKeepsPromiseIff | collectors/docker/collector.py:126-235 | A call, raising or not, keeps every well-formed event older than the cursor returned, if and only if what the client remembers and Docker answers does not move the cursor past an event that an earlier call had swallowed. |
| DockerCursor.LostStaysLost | collectors/docker/collector.py:94-103 | An event once lost is lost for good: the cursor is past it, so it is never served again. |
| DockerCursor.RunKeepsPromiseIff | collectors/docker/collector.py:126-235 | Over any run, with any exceptions, every well-formed event older than the cursor, and not than the first one, has been returned, if and only if no call has moved the cursor past a swallowed event. |
| DockerCursor.ClientKeepsPromiseIff | collectors/docker/collector.py:86-235 | The same of a client object and the trace of all its calls. |
| DockerCursor.SwallowedByRaise | collectors/docker/collector.py:177-235 | Only a call that raises after recording an event swallows it. |
| DockerCursor.RunLosesNothing | collectors/docker/collector.py:126-226 | Over any calls without an exception the promise is kept. |
| DockerCursor.SwallowedForGood | collectors/docker/collector.py:174-177 | An event recorded by a call that raised is returned by no later call until the recorded keys are pruned. |
| DockerCursor.BrokenStreamLosesEvent | collectors/docker/collector.py:174-235 | A run of two calls that loses an event: the first stream breaks after it, the second call returns a later one and moves the cursor past it. |
| DockerCursor.RunNeverRepeats | collectors/docker/collector.py:174-191 | No key is returned twice before the recorded keys are first pruned, exceptions or not. |
| DockerLoss.CanLoseIff | collectors/docker/collector.py:94-226 | Some call on a feed can lose an event if and only if a swallowed one at or after the cursor is followed by a new event of a later second, and no record up to that one makes a call raise. |
| RateBudgets.RateBudget.Allow | core/limits.py:14-21 | A call is allowed exactly as the window machine over the whole trace says. |
| RateBudgets.WindowAllowsItsLimit | core/limits.py:17-21 | The current window counts exactly the calls since it opened, refused ones included, and of these the first limit were allowed. |
| RateBudgets.IntervalBound | core/limits.py:14-21 | Of the calls of a category in any half-open interval of 60 seconds of a whole trace, any set of allowed ones has at most 2 * limit - 1 members, and none for a limit that is not positive. |
| RateBudgets.IntervalBoundIsTight | core/limits.py:18-19 | For every positive limit some trace reaches that bound. |
| RateBudgets.CategoriesAreIsolated | core/limits.py:17-20 | A call is answered as if only its own category had ever been called. |
| LoginWindow.SpacedBound | core/web_auth.py:72-75 | Times that are spaced as the deque spaces them: at most n in any half-open interval of 300 seconds. |
| LoginWindow.FailuresAreBounded | core/web_auth.py:69-86 | Of the checks of a client since its last success, any set of failed ones in a half-open interval of 300 seconds has at most as many members as failures are allowed, at every moment of the run. |
| WebSessions.WebSessionManager.Look | core/web_auth.py:71-74 | The pruning loop leaves exactly the failed checks of the last 300 seconds since the last success. |
| WebSessions.WebSessionManager.Login | core/web_auth.py:53-92 | Exactly when a login is turned away, raises, is refused or opens a session, and what check is recorded: the key verified or the configured one, six characters, the code of now or 30 seconds before or after, fewer than 10000 live sessions. |
| WebSessions.WebSessionManager.Attempt | core/web_auth.py:76-92 | A client that was not turned away: exactly when the check raises, fails, passes, and when a passed one opens a session. |
| WebSessions.WebSessionManager.Record | core/web_auth.py:83-86 | After a check the deque is again the failed checks of the last 300 seconds since the last success. |
| WebSessions.DropExpired | core/web_auth.py:63-68 | Pruning leaves exactly the live sessions, each with its credential. |
| WebSessions.WebSessionManager.Validate | core/web_auth.py:94-101 | A token is valid if and only if its session was opened and neither logged out nor outlived; forgetting expired ones never shows. |
| WebSessions.WebSessionManager.Credential | core/web_auth.py:103-104 | A live session yields the digest of the key it was opened with, any other token nothing. |
| WebSessions.WebSessionManager.Logout | core/web_auth.py:106-108 | Only the session of this token ends. |
| WebSessions.WebSessionManager.GuessesAreBounded | core/web_auth.py:69-86 | The same bound for every run of calls of the manager. |
| Principals.FoundIsOnly | database/store.py:436-439 | A credential finds a user if and only if it is the credential of only one. |
| Principals.PrincipalIff | core/auth.py:23-42 | Exactly whom a credential stands for, field by field: the one enabled user with a known role who has it, or, only if it is no one user's, the role whose configured key it is, under the name of that role; the session is the first 24 characters of the digest. |
| Principals.ProxyIff | core/auth.py:23-64 | A session stands for what its login key stands for now, if and only if no two configured roles share the key or a user has it. |
| Principals.SessionIsProxy | core/config.py:128-135 | With distinct configured keys it always does. |
| Principals.AuthState.CreateSession | core/api/v1/routes.py:76-92 | A session opens if and only if the key stands for somebody at that moment, the client is not turned away, the code is one of the three of this time, and there is room. |
| Principals.AuthState.Resolve | core/auth.py:45-64 | Over any interleaving of logins, logouts, expiry and changes of users, a token resolves to whom its login key stands for at present, in the sense above and under the session's own identifier, or to nothing if that is nobody or the session has ended. |
| Principals.AuthState.Logout | core/api/v1/routes.py:95-98 | Only the session of the bearer token ends. |
| BoundedLists.AddedIs | database/store.py:790-794 | Learning is a queue insertion: known or missing values change nothing, new ones go last and push out the oldest of 32. |
| BoundedLists.BoundedIsLearned | database/store.py:790-794 | Whatever was stored, the result has no duplicates, no missing values and at most 32 entries. |
| BoundedLists.NewValueSurvives | database/store.py:790-794 | A newly learned value survives any 31 further insertions. |
| BoundedLists.ThirtyTwoPushOut | database/store.py:790-794 | Any 32 values never seen before push every old value out. |
| DeviceProfiles.DeviceStore.Learn | database/store.py:819-831 | The loop over the fields adds to every list what the event teaches it. |
| DeviceProfiles.DeviceStore.UpdateDeviceProfile | database/store.py:796-872 | After any updates every stored row is the profile of everything ever reported of its device, the last event included. |
| DeviceProfiles.SafeEventIsLearned | database/store.py:819-831 | A safe event leaves its country, hour, service, agent, language, timezone, fingerprint or address, where it has one, in the list for it. |
| DeviceProfiles.NothingElseIsLearned | database/store.py:819-831 | No event adds more than its own value to a list, and an unsafe one changes none. |
| DeviceProfiles.DeviceStore.GetDeviceProfile | database/store.py:759-775 | The row of a device that was ever updated, else nothing. |
| DeviceProfiles.ListsAreLearned | database/store.py:819-831 | After any history each learned list is duplicate-free with at most 32 values. |
| DeviceProfiles.NewlyTaughtSurvives | database/store.py:819-831 | What a safe event newly taught is still known after the next 31 safe events and any unsafe ones. |
| TrustEngine.TrustCoherence | engine/trust/engine.py:17-29 | After any history the stored score equals the engine's and lies in [20, 70]. |
| TrustEngine.TrustIs | engine/trust/engine.py:17-50 | The counters, the stored score and the factor of every history in numbers of safe, unsafe and blocked events: up to 20 credit for at least ten, 5 debit for each unsafe one up to 30, a third of the difference rounded down. |
| TrustEngine.ConfidenceIs | database/store.py:834 | The stored confidence is the share of safe events among at least three, and at most 0.99. |
| TrustEngine.LowersRiskIff | engine/trust/engine.py:42-50 | Exactly which histories lower risk, in numbers of safe, unsafe and blocked events. |
| TrustEngine.TrustIsBounded | engine/trust/engine.py:42-50 | The trust factor lies in [-7, 10], rounding down. |
| TrustEngine.TrustIsEarned | engine/trust/engine.py:17-29 | A factor that lowers risk implies at least ten safe and at most three unsafe events in the whole history. |
| Analyzers.RelearnedPlaceAndTime | engine/geo_time/analyzer.py:12-48 | A safe event analyzed against the profile it has just updated is at a known place and time. |
| Analyzers.RelearnedClientIff | engine/client/analyzer.py:11-30 | Learning settles a client attribute if and only if the event carried it in its own field. |
| Analyzers.RelearnedIsQuiet | engine/client/analyzer.py:11-38 | With attributes from fields, such an event yields no geo/time and no client factor. |
| Analyzers.MetadataIsNeverLearned | engine/client/analyzer.py:11-38 | A difference found in metadata is found again however often the event is learned as safe. |
| Analyzers.PlaceAndTimeIsEvidence | engine/geo_time/analyzer.py:12-48 | With at least three safe events and a confidence of one half, a new place, hour or timezone is found, once for each and weighing 10, else nothing; and no finding is reputation or trust. |
| Analyzers.ClientIsEvidence | engine/client/analyzer.py:31-37 | A client finding weighs between 8 and 20 and is neither reputation nor trust. |
| Analyzers.ClientIs | engine/client/analyzer.py:11-37 | Exactly which attributes differ, and the weight: 8 for each, at most 20. The event's own field comes before metadata; agents and languages are known if a learned one occurs in them whatever the case, fingerprints if they are learned. |
| RiskEngine.LastWins | engine/risk/engine.py:18-26 | The dictionaries hold exactly the last item of every rule or source, once. |
| RiskEngine.NewSource | engine/risk/engine.py:18-26 | An item of a new source, in any place, adds one entry and changes no other. |
| RiskMonotone.FactorsAreEvidence | engine/risk/engine.py:18-33 | The factors returned are exactly those of the last detection of every rule and of the last result of every source that is listed with a score, with their texts, scores and kinds, and the additional ones; the reasons are theirs, in the same order. |
| RiskMonotone.ScoreIsTheSum | engine/risk/engine.py:34-39 | The score is the sum of the returned factors, 0 below and 100 above; or the ceiling, if and only if that is lower, all results listed with a score are of one source, and no returned factor but reputation and trust is positive. |
| RiskMonotone.FactorsAddUp | engine/risk/engine.py:33-34 | An additional factor adds its own score to the sum, in any place; no evidence sums to nothing. |
| RiskMonotone.NewDetectionNeverLowers | engine/risk/engine.py:18-39 | A detection under a new rule name, in any place, never lowers the score. |
| RiskMonotone.NewFactorNeverLowers | engine/risk/engine.py:33-39 | A factor that is not negative, in any place, never lowers the score. |
| RiskMonotone.NewListingLowersIff | engine/risk/engine.py:23-39 | A listed result of a new source lowers the score if and only if it is the only one, nothing corroborates it, and the score was above the ceiling. |
| RiskMonotone.LowCeilingLowers | engine/risk/engine.py:38-39 | For every ceiling below 10 a listing that lowers the score. |
| RiskMonotone.TrustMovesAtMostItself | engine/risk/engine.py:33-39 | Taking the trust factor away moves the score by no more than the factor, in either direction. |
| Decision.ReputationNeverLowers | engine/risk/engine.py:23-39 | With a ceiling of at least 10 a listed result of a new source never lowers an event's score, whatever the device's history. |
| Decision.FindingsAreAdaptive | core/service.py:60-73 | What the analyzers find about an event, with or without a profile, is evidence, never reputation or trust. |
| Decision.UnknownDeviceIsFound | core/service.py:62-70 | A device without a profile weighs 10, an event without a device nothing. |
| Decision.KnownDeviceIsMeasured | core/service.py:71-73 | A known device adds what its place, time and client weigh, and nothing else. |
| Decision.TrustCounts | core/service.py:74-76 | The trust factor counts with its score, whatever its sign. |
| Decision.ReputationNeverLowersEvent | core/service.py:60-82 | The same for the factors the service really hands over for an event and its device's history. |
| Decision.TrustLowersLittle | core/service.py:74-82 | Trust lowers an event's score by at most 7, and only for a device with at least ten safe and at most three unsafe events. |
| Decision.OneFeedBlocksIff | engine/policy/engine.py:39-50 | If no rule matches, one uncorroborated source, whatever its duplicates and whatever trust adds, blocks if and only if blocking is enabled without an explicit rule and both the sum of the factors and the ceiling reach the block threshold. |
| Decision.OneFeedCanBlockIff | engine/policy/engine.py:39-50 | Where no rule can match, some event with such evidence is blocked if and only if blocking is enabled without an explicit rule and the ceiling reaches the block threshold. |
| PolicyEngine.ScanFindsBest | engine/policy/engine.py:20-38 | Sorting by priority and scanning finds the matching rule of least priority and then least position, or none exactly if none matches. |
| PolicyEngine.EvaluateIsArgmin | engine/policy/engine.py:19-50 | The decision is that rule's, an unknown action raises, and the thresholds decide exactly if no rule matches. |
| PolicyEngine.BestRuleDecides | engine/policy/engine.py:20-38 | A rule decides whose risk, event type and source fit, if every other such rule has a higher priority number, or the same and stands later. |
| PolicyEngine.ThresholdsDecide | engine/policy/engine.py:39-50 | If no rule fits, the action of each band of scores. |
| PolicyEngine.NamesAre | engine/policy/engine.py:11-14 | Exactly the names, with two aliases, by which a rule can name each action. |
| PolicyEngine.ThresholdsAreMonotoneIff | engine/policy/engine.py:39-49 | Higher scores are answered at least as severely by the thresholds, if and only if not challenges are on while blocking by threshold is off. |
| PolicyEngine.OrderDoesNotMatter | engine/policy/engine.py:20-38 | Rules of distinct priorities decide the same in any order. |
| Incidents.IncidentStore.OpenIncident | database/store.py:635-642 | The open incident of a source and component that was updated last, or none exactly if none is open. |
| Incidents.IncidentStore.CreateIncident | database/store.py:565-604 | A new open incident with its first entry; a taken id raises and changes nothing. |
| Incidents.IncidentStore.RecordIncidentRisk | database/store.py:606-633 | A clamped score and one more entry under the present status; nothing for an unknown id. |
| Incidents.IncidentStore.UpdateIncidentStatus | database/store.py:649-664 | A known status is set and appended with a note of at most 500 characters; an unknown one raises and changes nothing. |
| Incidents.StatusKeepsSingleIff | database/store.py:649-664 | A status update keeps open incidents single unless it reopens one whose source and component have an open one. |
| IncidentRuns.StatusIsLastEntry | database/store.py:606-664 | In every run ids are unique and the last entry of every timeline is the current status. |
| IncidentRuns.TimelinesOnlyGrow | database/store.py:606-664 | From any moment of a run on, incidents stay and their timelines only grow at the end. |
| IncidentRuns.StepKeepsSingleIff | core/service.py:85-97 | A step gives a source and component a second open incident if and only if an operator reopens one beside an open one, or the service creates one beside one opened since its lookup. |
| IncidentRuns.AlwaysSingleIff | core/service.py:85-97 | A run keeps at most one open incident per source and component, at every moment, if and only if it has no such step. |
| IncidentRuns.CreatesTwinOnlyIfReopened | core/service.py:87-97 | The service creates a second one only if an operator reopened one of that source and component between its lookup and its write. |
| IncidentRuns.OneOpenIncident | core/service.py:85-97 | In every run without reopening there is at most one, at every moment. |
| IncidentRuns.ReopeningBreaksIt | database/store.py:649-664 | For any source, component and ids, runs with a reopening that end with two, one for either kind of step. |
| IncidentRuns.IncidentService.LookUp | core/service.py:87 | The service's lookup is one step of the run. |
| IncidentRuns.IncidentService.WriteDown | core/service.py:88-97 | Its write is one step: the found incident is updated, or a new one created. |
| IncidentRuns.IncidentService.Report | core/service.py:85-97 | The service's lookup and write, with operators acting in between, are steps of such a run; events below 70 that are not severe take none. |
| IncidentRuns.IncidentService.IncidentsAreConsistent | core/service.py:85-97 | Whatever was reported and updated, without reopening the store holds at most one open incident per source and component, and current timelines. |

## Left out

- Routes, ASGI plumbing, WebSockets, the frontend, the `run` loops: no state of their own beyond what is modelled.
- SQLite, JSON text, sockets and HTTP: tables are sequences and maps, commands succeed or fail nondeterministically.
- Anubis challenges and rate limits: modelled only by the row they leave, or the exception.
- Audit entries, profiles by address, baselines, reports, threat-intelligence caches, redaction, MCP dispatch.
- What `_enrich`, `inspect` and event normalization write into an event; that they may raise is modelled.
- LeaseSafety.ExpiryKeepsLiveLeases: assumes alike spellings, because without them it is false; the exact condition is
  LeaseExpiry.SweepCutsLiveIff.
- DockerEvents.DockerEventsClient.ReadEvents: the batch cap is positive, as its default is; reconnect delays are not
  modelled.
- DockerLoss.CanLoseIff: the one call that loses the event has a batch cap above the number of records up to the new
  event; with a smaller cap it takes more calls, which are covered by DockerCursor.RunKeepsPromiseIff only.
- DockerEvents.DockerEventsClient.Prune: which half of the keys is kept is arbitrary, as the order of a Python set is.
- DeviceProfiles.DeviceStore.UpdateDeviceProfile: confidence is an exact fraction, so float rounding is not modelled;
  the times first and last seen are left out.
- WebSessions.WebSessionManager.Login: each call is one step; calls of several threads interleave only between calls.
- PolicyEngine.EvaluateIsArgmin: priorities and risk bounds are integers; the ValueError of a text that is none is left out.
- Incidents.IncidentStore.CreateIncident: priority, factors, recommendations and event id are not kept.
- RiskEngine.LastWins: scores are unbounded integers here; the range checks of the source's types only narrow them.
