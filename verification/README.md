# Verification of a drone ground-control system

A Dafny model of the algorithmic and stateful core of the system, with proofs. Code that computes values
is modelled by functions; code that works step by step is modelled by methods with loops or by classes
whose methods update fields, each proved against a specification function, and the properties are proved
about that function. Protocols with several tasks are state machines whose steps are the stretches of code
between two suspension points; the classes beside them implement the single steps.

| file | what it covers |
|---|---|
| `EvenOdd.dfy`, `RayCasting.dfy` | point in polygon by parity, geofence check |
| `PathSimplify.dfy` | Ramer-Douglas-Peucker path simplification |
| `Qubo.dfy`, `FleetAssignment.dfy`, `AssignmentOptimum.dfy` | fleet assignment as an unconstrained quadratic form and its minima |
| `IsingMap.dfy` | change to spin variables and Pauli strings |
| `FleetSplit.dfy`, `FleetRoute.dfy` | splitting under a qubit budget; the whole assignment request |
| `AuditChain.dfy` | the hash-chained audit log, its verification in one pass and in pages |
| `TokenLife.dfy`, `RateLimiter.dfy` | token issue and revocation in expiring entries; the sliding-window limiter |
| `ConnectRace.dfy`, `ConnectRuns.dfy`, `ConnectLeaks.dfy`, `ProbeRace.dfy`, `Cooldown.dfy` | concurrent connection attempts and simulated flights in one registry, the race of candidates, the failure cool-down |
| `BackupDumps.dfy`, `Restore.dfy` | incremental dumps, loss detection and restore |
| `Strings.dfy`, `CopyFormat.dfy`, `CopyParser.dfy` | the COPY text format of pg_dump files |
| `TemplateSearch.dfy` | template matching and cropping in the browser tracker |
| `Proximity.dfy` | separation alerts and the state table that stores them |
| `FlightModel.dfy`, `SimulatedFlight.dfy` | the simulated flight: step function, invariants, the object |
| `FlightLaws.dfy` | what a flight gets done: landings, climbs, legs, the way home, giving way |

Assumptions common to all files: floating-point numbers are reals; distances, bearings, trigonometry,
hashing and canonical JSON are arbitrary functions of which only the stated facts are used; clocks do not
run backwards; Redis and the database answer. Hash results are stated as "or two rows
of the logs in question collide": their preimages differ and their digests agree.
Token expiry follows section 4.1.4 of RFC 7519: a token is rejected on and after its expiry time.

Where the code does something else than its comments or callers expect, the model follows the code. Each case
has a witness and a condition:

| case | witness | holds if and only if |
|---|---|---|
| open sockets have an owner | `ConnectLeaks.LateOpeningLeaks`, `LateReaderLeaks`, `DetachLeaks`, `AttachLeaks` | `ConnectRace.StepAccountedIff`, `ConnectRuns.AccountedThroughoutIff` |
| the limiter's bound | `RateLimiter.BurstPasses` | `SafeWithRepeatsIff` (repeating times); proved outright for increasing times |
| the newest dump is current | `BackupDumps.FailedDumpForgets` | stated there for one failed dump; over runs, current outside the unseen tables |
| the configured number of dumps is kept | `BackupDumps.ThirteenthDumpCostsTwo`, `HalfIsKept` | `RotationKeepsAllIff` for one rotation, `ArchiveSize` over runs |
| a JSON dump is never barred | `Restore.SharedNameHidesDump` | `LossRemainsIff` |
| unknown tables are skipped | `CopyParser.HarmfulText` | `UnknownRowsHarmlessIff` |
| simplification returns | `PathSimplify.LaterStretchLoops` | `ReturnsIffEnds`, `NegativeToleranceEndsIff` |
| revocations are never forgotten | `TokenLife.LongLivedTokenEscapes` | lifetimes up to the refresh lifetime (`StoreForgetsNothing` and the witness) |
| a tick does not raise | `FlightModel.RestartAfterMissionRaises` | `RaisesIff` |
| a drone stays above ground | `FlightModel.NegativeGotoGoesUnderground` | `GoesUndergroundIff` for a tick; one way over runs |
| sub-problems fit the qubit budget | in the contract | `FleetSplit.Decompose` |
| stored alerts stay right | in the contract | `Proximity.WithdrawalKeepsStepIff` |

`dafny verify dfyconfig.toml` checks everything.

## Model

| member | source | states |
|---|---|---|
| RayCasting.PointInPolygon | backend/app/utils/geo_utils.py:106-125 | the toggling loop answers whether an odd number of ring edges is crossed, for every ring, closed or not |
| RayCasting.AllPointsInGeofence | backend/app/utils/geo_utils.py:142-160 | the violations are exactly the indices of points outside the fence, in order; an unreadable fence has none |
| RayCasting.CrossesSymmetric | backend/app/utils/geo_utils.py:119-124 | the edge test does not depend on the direction in which an edge is walked |
| RayCasting.CrossesIff | backend/app/utils/geo_utils.py:119-124 | an edge is crossed if and only if its longitudes enclose the point's, the larger one excluded, and the edge has a point of that longitude further north |
| RayCasting.TriangleIff | backend/app/utils/geo_utils.py:106-125 | for a point on none of its lines, a triangle contains it if and only if it is a mixture of the three corners with positive weights |
| RayCasting.FanParity | backend/app/utils/geo_utils.py:106-125 | any ring, self-crossing ones included, contains a point if and only if an odd number of the triangles fanning out from its first vertex do |
| RayCasting.ChordSplit | backend/app/utils/geo_utils.py:106-125 | cutting a ring along the chord between any two vertices: inside the whole = inside one part xor inside the other |
| RayCasting.RotateRing | backend/app/utils/geo_utils.py:106-125 | starting the ring at another vertex changes no answer |
| RayCasting.ReverseRing | backend/app/utils/geo_utils.py:106-125 | walking the ring backwards changes no answer |
| RayCasting.ClosingRing | backend/app/utils/geo_utils.py:106-125 | repeating the first vertex at the end changes no answer |
| RayCasting.CrossingPointBetween | backend/app/utils/geo_utils.py:119-124 | a straddling edge meets the ray's line between its own two latitudes (nonlinear) |
| RayCasting.OutsideBoxIsOutside | backend/app/utils/geo_utils.py:106-125 | a point beyond all vertices in any of the four directions is reported outside |
| EvenOdd.ChangesAreEven | backend/app/utils/geo_utils.py:119-124 | along any cycle the number of edges whose ends lie on different sides is even |
| EvenOdd.SplitCycle | backend/app/utils/geo_utils.py:106-125 | parity of a symmetric edge property is additive over the two cycles a chord makes |
| PathSimplify.Rdp | backend/app/utils/geo_utils.py:305-320 | wherever the recursion ends, which is for every tolerance from zero up, the scan and the two recursive calls compute the recursive specification; below zero the answer is the whole path |
| PathSimplify.SimplifyPath | backend/app/utils/geo_utils.py:279-321 | paths of at most two points come back unchanged; others are simplified, or returned whole for a negative tolerance |
| PathSimplify.KeepsSubsequence | backend/app/utils/geo_utils.py:279-321 | the result is the subsequence at increasing kept indices; both ends are kept |
| PathSimplify.DroppedWithinTolerance | backend/app/utils/geo_utils.py:279-321 | every vertex lies within tolerance of the chord between the kept vertices around it, for an arbitrary deviation function |
| PathSimplify.KeptForAReason | backend/app/utils/geo_utils.py:305-320 | every inner kept vertex is the first farthest of all vertices between two kept ones from the chord between those, and deviates by more than the tolerance |
| PathSimplify.SimplifyTwice | backend/app/utils/geo_utils.py:279-321 | simplifying the simplified path changes nothing |
| PathSimplify.EndsFromZeroUp | backend/app/utils/geo_utils.py:305-320 | for every tolerance from zero up the recursion ends on every path |
| PathSimplify.ReturnsIffEnds | backend/app/utils/geo_utils.py:305-320 | for every tolerance some depth of nested calls suffices if and only if every split reached is at an inner vertex, and the answer then does not depend on the depth |
| PathSimplify.NegativeToleranceEndsIff | backend/app/utils/geo_utils.py:305-320 | below zero the recursion ends if and only if every stretch of three or more vertices it reaches has an inner vertex off its chord |
| PathSimplify.LaterStretchLoops | backend/app/utils/geo_utils.py:305-320 | a path that bends as a whole and still recurses for ever in a later stretch |
| Qubo.AddValue | backend/app/modules/drone_flight/fleet_router.py:98-100 | adding a coefficient under the ordered key adds exactly that monomial to the form's value |
| Qubo.Evaluate | backend/app/modules/drone_flight/fleet_router.py:114-118 | the loop over stored coefficients sums the value of the form |
| FleetAssignment.MakeProblem | backend/app/modules/drone_flight/fleet_router.py:83-90 | cost matrix and penalty, or ValueError exactly for drones without targets |
| FleetAssignment.BuildQubo | backend/app/modules/drone_flight/fleet_router.py:95-112 | for every bit vector the form's value is total cost + penalty * sum of (count-1)^2 - penalty * W |
| FleetAssignment.PairsIdentity | backend/app/modules/drone_flight/fleet_router.py:106-112 | twice the number of doubly assigned pairs is count^2 - count |
| FleetAssignment.ExcessZeroIffFeasible | backend/app/modules/drone_flight/fleet_router.py:120-126 | the penalised excess is zero exactly for feasible vectors, as `decode` and `is_feasible` see them |
| AssignmentOptimum.PenaltyDominates | backend/app/modules/drone_flight/fleet_router.py:89-90 | the penalty weight exceeds the cost of the best assignment |
| AssignmentOptimum.PenaltyIs | backend/app/modules/drone_flight/fleet_router.py:89-90 | the penalty is twice the largest cost times the number of targets, or 1 when all costs are zero |
| AssignmentOptimum.ValueBounds | backend/app/modules/drone_flight/fleet_router.py:83-130 | feasible vectors lie at cost - penalty * W and not below the optimum, all others strictly above it |
| AssignmentOptimum.MinimumIsOptimalAssignment | backend/app/modules/drone_flight/fleet_router.py:83-130 | a vector minimises the unconstrained form if and only if it is feasible and costs what the cheapest drones cost together |
| AssignmentOptimum.Energy | backend/app/modules/drone_flight/fleet_router.py:114-118 | `energy` of a bit vector is cost plus penalty times excess minus penalty * W |
| IsingMap.QuboToIsing | backend/app/modules/drone_flight/fleet_router.py:235-259 | with z = 1 - 2x, emitted terms plus a constant differ from the QUBO value by at most 1e-12 per omitted term; the returned offset is 0 |
| IsingMap.EmitTerms | backend/app/modules/drone_flight/fleet_router.py:246-258 | only coefficients above 1e-12 are emitted; the rest of the Ising value is bounded by 1e-12 per skipped coefficient |
| IsingMap.PauliRoundTrip | backend/app/modules/drone_flight/fleet_router.py:189-199 | decoding the Z positions of a string gives back exactly the qubits it was built from |
| IsingMap.TriangleIs | backend/app/modules/drone_flight/fleet_router.py:251-258 | the number of qubit pairs, hence the largest number of omitted couplings |
| FleetSplit.Decompose | backend/app/modules/drone_flight/fleet_router.py:266-294 | target lists together hold every target once, in order of bearing around the centre of all targets; every group but the last has the full size the budget allows; drone lists are duplicate-free, in order of distance from the group's centre, and no drone left out is nearer; the budget holds if and only if it already covers everything, is at least 2, or is 1 with one drone; ValueError for negative budgets that do not |
| FleetSplit.Groups | backend/app/modules/drone_flight/fleet_router.py:285-294 | slicing the ordered targets loses, repeats and reorders none, and every group gets its nearest drones |
| FleetSplit.SortedAscends | backend/app/modules/drone_flight/fleet_router.py:283-293 | the sort used for bearing and distance is ascending by its key and stable |
| FleetSplit.NearestAre | backend/app/modules/drone_flight/fleet_router.py:288-293 | the first d indices of the distance sort are distinct and nearest |
| FleetSplit.MeanIsCentre | backend/app/modules/drone_flight/fleet_router.py:280-281 | the centre is the point from which the offsets of all targets cancel out |
| FleetSplit.JoinedIsFeasible | backend/app/modules/drone_flight/router.py:373-396 | joining feasible solutions of all sub-problems names every target exactly once and only existing drones |
| FleetRoute.AssignFleet | backend/app/modules/drone_flight/router.py:352-404 | the whole request: rejected without drones or targets, otherwise split, solved part by part and joined; the answer is flagged feasible if and only if every target is flown to exactly once, always so for a solver that finds feasible vectors; the reported distance is the sum of the listed legs |
| FleetRoute.PartsSolve | backend/app/modules/drone_flight/router.py:371-396 | the joined answer names every target exactly once if and only if every part's solution is feasible |
| FleetRoute.JoinedNames | backend/app/modules/drone_flight/router.py:385-396 | the joined answer names a target as often as the one part that holds it flies to it |
| FleetRoute.PartFlown | backend/app/modules/drone_flight/router.py:383-396 | the distances listed for a part add up to the cost its solver reports |
| AuditChain.VerifyAuditChain | backend/app/core/security.py:362-382 | the loop returns the first failing id of the specification |
| AuditChain.AuditLogger.Log | backend/app/core/security.py:411-462 | appends one row linked to the newest chained row, changes nothing before it, and the log still verifies |
| AuditChain.AppendedVerifies | backend/app/core/security.py:362-382 | every log made of appends, with unhashed legacy rows anywhere, verifies |
| AuditChain.RepeatedHash | backend/app/core/security.py:347-360 | two logs of different chained length with the same last hash hold two rows, one each, that were hashed from different strings to one digest |
| AuditChain.DeletedRun | backend/app/core/security.py:362-382 | deleting a middle run is reported at the first chained row after the gap, or two rows of the log collide; a cut that leaves no chained row before or after the gap, or takes none, goes unnoticed (both halves) |
| AuditChain.EndpointsDetermineLog | backend/app/core/security.py:362-382 | two verifying logs with the same first prev_hash and last row_hash, as many chained rows or a start at genesis, hold the same canonical records in their chained rows, or a row of one collides with a row of the other |
| AuditChain.EditedRecord | backend/app/core/security.py:362-382 | changing the record of one row is reported at that row if and only if the old and the new row have different digests; otherwise the log verifies |
| AuditChain.ReorderedRows | backend/app/core/security.py:362-382 | a re-ordering of an appended log verifies if and only if its chained rows keep their order, or two rows of the log collide |
| AuditChain.PageIsSlice | backend/app/scripts/verify_audit_log.py:29-34 | `id > last ORDER BY id LIMIT n` returns the next n rows |
| AuditChain.VerifyPaged | backend/app/scripts/verify_audit_log.py:23-47 | paging with a carried row gives the verdict of one pass over the whole log, for every page size and any mix of unhashed rows |
| TokenLife.StepKeeps | backend/app/core/security.py:131-175 | every handler keeps the invariant: entries outlive the tokens they block |
| TokenLife.RunKeeps | backend/app/core/auth.py:88-135 | the same over every legal run |
| TokenLife.StoreForgetsNothing | backend/app/core/auth.py:116-135 | at every moment the expiring store answers like a record that never forgets, or two issued jtis share a digest |
| TokenLife.EveryRunForgetsNothing | backend/app/core/auth.py:116-135 | the same after every run of requests from an empty server |
| TokenLife.StepIssuesIff | backend/app/core/auth.py:249-392 | every request issues exactly these tokens: kind, user, identifier, time and lifetime; an exchange issues them to the user of the presented token |
| TokenLife.TokensAreEarned | backend/app/core/auth.py:249-392 | after every run from an empty server each token belongs to a user who took the first login step in it, and each access or refresh token to one who logged in or gave the right code |
| TokenLife.GrantedTokenLives | backend/app/core/auth.py:116-392 | a granted token is accepted, as its own kind only, at once and until it expires, unless it is exchanged, logged out by its user or that user's sessions are revoked, or digests collide |
| TokenLife.RevokedSessionsStayRevoked | backend/app/core/security.py:148-175 | no token of a user issued up to the second of a revocation is ever accepted again, whatever digests collide |
| TokenLife.MfaTokenOnce | backend/app/core/auth.py:364-392 | an exchanged MFA token is never exchanged again |
| TokenLife.LogoutEndsTokens | backend/app/core/auth.py:315-336 | logging out ends the access token and the same user's refresh token for good |
| TokenLife.LongLivedTokenEscapes | backend/app/core/security.py:148-162 | the condition is exact: when access or MFA tokens outlive refresh tokens, a run revives a revoked one |
| TokenLife.TokenService.RevokeUserSessions | backend/app/core/auth.py:243-244 | one entry per user, as the state machine says |
| TokenLife.TokenService.Decode | backend/app/core/auth.py:116-135 | signature, expiry, type and both revocation look-ups |
| TokenLife.TokenService.Login | backend/app/core/auth.py:249-291 | issues an access and a refresh token of that user with their lifetimes |
| TokenLife.TokenService.Challenge | backend/app/core/auth.py:284-289 | issues an MFA token of that user and no session |
| TokenLife.TokenService.MfaVerify | backend/app/core/auth.py:364-392 | a session of the token's user if and only if the token decodes and the code is right; the token is used up first |
| TokenLife.TokenService.RefreshAccess | backend/app/core/auth.py:296-311 | a new access token if and only if the refresh token decodes; it is the same user's and usable at once unless digests collide |
| TokenLife.TokenService.Logout | backend/app/core/auth.py:315-336 | revokes the presented tokens that belong to the user |
| RateLimiter.RateLimiter.Check | backend/app/core/security.py:197-240 | each decision is the one a limiter keeping the full history would take; rejected requests are recorded too |
| RateLimiter.PruningIsExact | backend/app/core/security.py:211-222 | what survives pruning and key expiry is exactly the recent part of the full history |
| RateLimiter.NeverOverLimit | backend/app/core/security.py:197-240 | for strictly increasing times every half-open window holds at most `limit` accepted requests |
| RateLimiter.RejectedIsBusy | backend/app/core/security.py:197-240 | a rejected request follows at least `limit` requests of the same client within the window |
| RateLimiter.AcceptedIff | backend/app/core/security.py:197-240 | at strictly increasing times a request is accepted if and only if fewer than `limit` precede it in the window |
| RateLimiter.LawfulClientPasses | backend/app/core/security.py:197-240 | a client that never makes more than `limit` requests in a window is never rejected |
| RateLimiter.BurstPasses | backend/app/core/security.py:217-222 | equal times are one sorted-set member, so a burst passes any limit above one |
| RateLimiter.SafeWithRepeatsIff | backend/app/core/security.py:197-240 | with repeating times the bound holds if and only if the limit is 0 or 1 |
| ConnectRace.StepWellFormed | backend/app/modules/drone_control/mavlink_manager.py:132-316 | registered links are open committed probes of their own drone with a running read loop, whatever the interleaving |
| ConnectRace.RegistrationEndsIff | backend/app/modules/drone_control/mavlink_manager.py:238-441 | a registration ends or is replaced if and only if its drone is disconnected, a read loop of the drone exits, a simulated flight is attached over a link, or it is detached; no probe ever takes one over |
| ConnectRace.AnswerIff | backend/app/modules/drone_control/mavlink_manager.py:132-316 | what connect() answers: success if and only if the drone was registered already or this probe registered it; failure if and only if the link did not open, no heartbeat came, or the drone got registered meanwhile |
| ConnectRace.StepOrphans | backend/app/modules/drone_control/mavlink_manager.py:132-441 | the exact set of ownerless open sockets after every event |
| ConnectRace.StepAccountedIff | backend/app/modules/drone_control/mavlink_manager.py:132-441 | open sockets stay exactly those of unfinished probes plus the registered ones, unless a link opens for a cancelled probe, a simulated flight is attached to or detached from a drone with a link, or a stale read loop removes another link; each of these breaks it |
| ConnectRuns.AccountedThroughoutIff | backend/app/modules/drone_control/mavlink_manager.py:132-441 | over every run the accounting holds all the way if and only if no event is one of those |
| ConnectRace.OrphanClosesIff | backend/app/modules/drone_control/mavlink_manager.py:346-423 | an ownerless socket is closed if and only if its own read loop exits while its drone is registered |
| ConnectRuns.DroppedGrowsIff | backend/app/modules/drone_control/mavlink_manager.py:291-305 | a link that opened for a cancelled probe is never closed, and a run adds one if and only if a link opens for a cancelled probe |
| ConnectRuns.SocketsOfGuardedRun | backend/app/modules/drone_control/mavlink_manager.py:132-441 | over every run whose commits find no left-over read loop and whose simulated flights come and go on drones without a link, the open sockets are those of unfinished probes, the registered ones and late-opened ones, and the first two alone if and only if no link opened for a cancelled probe |
| ConnectRuns.AttemptConnects | backend/app/modules/drone_control/mavlink_manager.py:132-287 | an undisturbed attempt on an unregistered drone connects it |
| ConnectLeaks.LateOpeningLeaks | backend/app/modules/drone_control/mavlink_manager.py:291-305 | a probe cancelled while its link opens leaves a socket that stays open and ownerless whatever follows |
| ConnectLeaks.LateReaderLeaks | backend/app/modules/drone_control/mavlink_manager.py:411-423 | a rival that is ready when a connected drone is disconnected registers, is unregistered by the old read loop, and its socket has no owner |
| ConnectLeaks.RivalsMeet | backend/app/modules/drone_control/mavlink_manager.py:132-277 | such a state is reached from the start by two candidates of one drone |
| ConnectLeaks.DetachLeaks | backend/app/modules/drone_control/mavlink_manager.py:437-441 | detaching a connected drone before disconnecting it, as its deletion does, leaves its socket open after its read loop has ended |
| ConnectLeaks.AttachLeaks | backend/app/modules/drone_control/mavlink_manager.py:425-435 | simulating a connected drone orphans its link, and that link's read loop later unregisters the simulation |
| ConnectRace.ConnectionManager.Check | backend/app/modules/drone_control/mavlink_manager.py:134-137 | first locked section: success at once for a connected drone |
| ConnectRace.ConnectionManager.LinkOpened | backend/app/modules/drone_control/mavlink_manager.py:157-162 | opening a link, also after the probe was cancelled |
| ConnectRace.ConnectionManager.FirstHeartbeat | backend/app/modules/drone_control/mavlink_manager.py:164-290 | heartbeat, or failure that closes the socket |
| ConnectRace.ConnectionManager.TryCommit | backend/app/modules/drone_control/mavlink_manager.py:238-277 | second locked section: exactly the first probe of a drone registers, a loser closes its socket |
| ConnectRace.ConnectionManager.CancelProbe | backend/app/modules/drone_control/mavlink_manager.py:291-305 | cancellation closes what the probe holds, but not a link still being opened |
| ConnectRace.ConnectionManager.DisconnectDrone | backend/app/modules/drone_control/mavlink_manager.py:329-344 | closes and unregisters the drone's connection |
| ConnectRace.ConnectionManager.ReaderStopped | backend/app/modules/drone_control/mavlink_manager.py:411-423 | the clean-up looks up the drone and removes whatever is registered for it |
| ConnectRace.ConnectionManager.AttachSimulation | backend/app/modules/drone_control/mavlink_manager.py:425-435 | registers a simulated flight over whatever is there |
| ConnectRace.ConnectionManager.DetachSimulation | backend/app/modules/drone_control/mavlink_manager.py:437-441 | removes whatever is registered and closes nothing |
| ProbeRace.RunKeeps | backend/app/modules/drone_control/auto_connector.py:176-237 | the race's invariant over every interleaving with other callers and read loops |
| ProbeRace.Verdict | backend/app/modules/drone_control/auto_connector.py:176-237 | a finished race leaves no task running and reports failure if and only if every candidate failed, and then none committed |
| ProbeRace.NothingHeldAfter | backend/app/modules/drone_control/auto_connector.py:176-237 | over every guarded race from a well-formed start, the only open sockets of its tasks afterwards are a registered one or links that opened after cancellation, and none after a failure |
| ProbeRace.RaceIsARunOfTheNetwork | backend/app/modules/drone_control/auto_connector.py:214-229 | a whole race is one run of the connection machine, so socket accounting applies |
| ProbeRace.FirstOkIs | backend/app/modules/drone_control/auto_connector.py:219-224 | the winner is the first successful task of the batch, and there is one if and only if some task succeeded |
| ProbeRace.CollectDone | backend/app/modules/drone_control/auto_connector.py:219-224 | the batch loop keeps the first success and never replaces it |
| Cooldown.Candidates.Record | backend/app/modules/drone_control/auto_connector.py:163-173 | the two tables always say what the whole history of outcomes says |
| Cooldown.SkippedIff | backend/app/modules/drone_control/auto_connector.py:124-160 | a fallback is skipped if and only if its last two outcomes are failures and the latter is less than 120 s old |
| BackupDumps.StepKeeps | backend/app/core/backup.py:249-296 | commits, table reads, ends and failures of dumps keep: outside pending, in-flight and unseen tables the newest dump is current |
| BackupDumps.NewestDumpIsCurrent | backend/app/core/backup.py:249-296 | the same over every run from a fresh start, with commits between any two table reads |
| BackupDumps.DebouncedReads | backend/app/core/backup.py:249-286 | a write-triggered dump reads exactly the dirty tables and carries the rest over when the newest dump verifies, and otherwise carries nothing and reads every table |
| BackupDumps.IncrementalEqualsFull | backend/app/core/backup.py:249-296 | on runs without failed write-triggered dumps and with honest dirty sets, whenever nothing is pending the newest dump equals a full dump of the current database |
| BackupDumps.QuietFullDump | backend/app/core/backup.py:279-286 | an undisturbed periodic dump holds exactly the current rows of every table |
| BackupDumps.ForgottenTableStaysStale | backend/app/core/backup.py:659-668 | a table a failed dump took from the pending set keeps its old dump contents until a full dump, a damaged newest dump or another commit to it |
| BackupDumps.FailedDumpForgets | backend/app/core/backup.py:659-668 | commit, write-triggered dump, failure: nothing is pending, and the newest dump is current if and only if it already held those rows |
| BackupDumps.FullDumpHeals | backend/app/core/backup.py:253-259 | a full dump repairs every table, whatever was missed before it |
| BackupDumps.BackupService.OnCommit | backend/app/core/backup.py:695-709 | dirty tables join the pending set |
| BackupDumps.BackupService.BeginDebounced | backend/app/core/backup.py:659-668 | swaps the pending set and carries forward from the newest dump, or reads everything when there is none that verifies |
| BackupDumps.BackupService.ReadTable | backend/app/core/backup.py:280-286 | one table read |
| BackupDumps.BackupService.WriteDump | backend/app/core/backup.py:288-316 | writes the dump and deletes the slice of oldest ones that rotation takes, one by one |
| BackupDumps.RotationKeepsAllIff | backend/app/core/backup.py:309-314 | rotation deletes nothing if and only if the archive is empty, has exactly the configured size or at most half of it |
| BackupDumps.ThirteenthDumpCostsTwo | backend/app/core/backup.py:309-314 | with 24 dumps configured, the thirteenth deletes the two oldest: the negative slice counts from the end |
| BackupDumps.ArchiveSize | backend/app/core/backup.py:245-316 | over every run with at least one finished dump the archive holds the configured number if it started with all but one of them or more; otherwise, from three up, at most half |
| BackupDumps.HalfIsKept | backend/app/core/backup.py:245-316 | starting empty, the archive never holds more than half of the configured number |
| Restore.RestoreTables | backend/app/core/backup.py:441-472 | every empty table gets the rows of the first source that has any; nothing else changes |
| Restore.FirstRows | backend/app/core/backup.py:457-472 | walks the sources newest first, passing over the fallback when it is barred |
| Restore.IsWiped | backend/app/core/backup.py:446-453 | the fallback is allowed if and only if all its tables with rows, self-refilling ones aside, are empty |
| Restore.Detect | backend/app/core/backup.py:502-533 | true if and only if some recent dump has rows for a known table that is empty |
| Restore.LostIff | backend/app/core/backup.py:502-533 | a table is lost if and only if it is known, has no rows, and some recent dump has rows for it |
| Restore.FallbackIff | backend/app/core/backup.py:441-472 | a table no JSON dump has rows for is filled from the pg_dump if and only if all its known tables with rows, users, audit_log and access_requests aside, are empty |
| Restore.OnlyEmptyTablesChange | backend/app/core/backup.py:454-456 | tables that had rows are untouched and no table is emptied |
| Restore.FilledFromNewest | backend/app/core/backup.py:457-472 | a filled table holds the rows of the newest verified dump that has any, or the fallback's when none has |
| Restore.NoLossAfterRestore | backend/app/core/backup.py:441-472 | after a restore, detection over the same dumps is false |
| Restore.LossRemainsIff | backend/app/core/backup.py:441-472 | whatever the names, loss remains after a restore if and only if the fallback is barred and every source with rows for some lost table goes by its name |
| Restore.SharedNameHidesDump | backend/app/core/backup.py:446-460 | why fallback names carry a prefix: under a shared name a JSON dump is barred too and the loss stays |
| Restore.SecondRestoreChangesNothing | backend/app/core/backup.py:441-472 | a second restore from the same dumps and the same fallback changes nothing |
| Restore.WithdrawnFallbackChangesNothing | backend/app/core/backup.py:441-475 | nor does one from the same dumps alone, once the applied fallback is withdrawn |
| Restore.WipeThenRestore | backend/app/core/backup.py:388-489 | wiping and restoring brings a table that was current in the newest dump back if and only if it had rows or no recent dump holds older rows for it |
| Restore.RecentIs | backend/app/core/backup.py:388-440 | the sources are the verified ones among the newest dumps, newest first |
| CopyFormat.UnescapeLoop | backend/app/core/sql_dump_loader.py:37-50 | the index loop, fast path included, computes the recursive unescaping |
| CopyFormat.UnescapeEscape | backend/app/core/sql_dump_loader.py:37-50 | unescaping undoes the escapes of the COPY text format for every string |
| CopyFormat.OtherEscapes | backend/app/core/sql_dump_loader.py:34-50 | any other escaped character stands for itself, and a last backslash stays |
| CopyFormat.CellMeans | backend/app/core/sql_dump_loader.py:53-65 | any cell at all: only the null mark is null, only `t` is true, and numbers and JSON fail exactly when their reader does |
| CopyFormat.ShorterWins | backend/app/core/sql_dump_loader.py:98-103 | a line with more or fewer cells than columns is read as far as both go |
| Strings.LineBreaks | backend/app/core/sql_dump_loader.py:77-79 | lines end at a line feed, a carriage return, or both together |
| CopyFormat.EscapedIsSafe | backend/app/core/sql_dump_loader.py:34-50 | escaped text has no tab or line break and is neither the null mark nor the end mark |
| CopyFormat.NullIsNotText | backend/app/core/sql_dump_loader.py:102 | null and every text, the text of the null mark included, print differently |
| CopyFormat.RowRoundTrip | backend/app/core/sql_dump_loader.py:53-65 | a printed row of text, boolean, number, JSON and null cells is one line, not the end mark, and reads back as the row |
| CopyFormat.RowOfHolds | backend/app/core/sql_dump_loader.py:98-103 | with distinct columns each known column gets its own cell and unknown columns are dropped |
| CopyParser.ParseFile | backend/app/core/sql_dump_loader.py:68-104 | the line loop computes the specification, with the errors of malformed headers and of cells their type cannot read |
| CopyParser.HeaderRoundTrip | backend/app/core/sql_dump_loader.py:85-89 | a printed header, names quoted or not, reads back as table and columns |
| CopyParser.PrintedLooksLike | backend/app/core/sql_dump_loader.py:82-95 | the printer's blocks have the shape of pg_dump's: header line, rows, end mark |
| CopyParser.KnownRows | backend/app/core/sql_dump_loader.py:92-103 | the rows of a known table are collected in order |
| CopyParser.RoundTrip | backend/app/core/sql_dump_loader.py:68-104 | parsing any printed dump gives back what it stands for: last block per known table, ignored tables and harmless unknown ones left out |
| CopyParser.TruncatedFile | backend/app/core/sql_dump_loader.py:68-104 | a file that breaks off inside a table gives what was complete before it |
| CopyParser.ParsedWithinSchema | backend/app/core/sql_dump_loader.py:68-104 | whatever a file contains, only tables and columns of the model are read, and never the migration table |
| CopyParser.UnknownRowsHarmlessIff | backend/app/core/sql_dump_loader.py:80-103 | skipping the rows of an unknown table leaves whatever was read before alone if and only if none reads as a malformed header or opens a known table, an ignored one that can read the rest aside |
| CopyParser.HarmfulText | backend/app/core/sql_dump_loader.py:80-89 | such rows exist: a text beginning with the header prefix and without a space makes the file unreadable |
| TemplateSearch.MatchTemplate | frontend/src/utils/localTracker.ts:55-89 | the early-exit search answers like scanning every offset in full; every array access is in range |
| TemplateSearch.SumUpTo | frontend/src/utils/localTracker.ts:73-83 | the row sums equal the full sum or are already above the bound |
| TemplateSearch.ExhaustiveIsFirstMinimum | frontend/src/utils/localTracker.ts:55-89 | the answer is the first offset, row by row, of least mean difference in the clamped window, or the clamped start with 255 when nothing is below 255 |
| TemplateSearch.WindowIff | frontend/src/utils/localTracker.ts:58-63 | the window holds the offsets where the template fits in the frame and which lie within the radius, half a pixel more, of the centre |
| TemplateSearch.StartIsNearest | frontend/src/utils/localTracker.ts:65 | the starting answer is the offset nearest to the centre at which the template fits |
| TemplateSearch.SumIs | frontend/src/utils/localTracker.ts:73-83 | the sampled sum adds up exactly the pixels whose row and column are multiples of the step |
| TemplateSearch.SamplesAre | frontend/src/utils/localTracker.ts:68-69 | the mean is taken over one sample per step in each direction, rounded up |
| TemplateSearch.NoSampleNoMatch | frontend/src/utils/localTracker.ts:68-85 | a template without pixels never replaces the start |
| TemplateSearch.Crop | frontend/src/utils/localTracker.ts:37-48 | the clamped rectangle, pixel by pixel, inside the image; a black patch for an empty image |
| TemplateSearch.CropInside | frontend/src/utils/localTracker.ts:37-41 | a rectangle inside the image is cropped as asked |
| TemplateSearch.CropClamps | frontend/src/utils/localTracker.ts:37-41 | any other rectangle starts at the nearest row and column and is as large as asked unless the edge cuts it off |
| TemplateSearch.CropIsFound | frontend/src/utils/localTracker.ts:37-89 | searching a frame for its own crop ends with difference zero at the crop's corner or an earlier offset |
| Proximity.NearestTable | backend/app/modules/drone_control/proximity_monitor.py:35-50 | the pairwise loops fill the table with each drone's nearest other drone |
| Proximity.NearestOfIsLeast | backend/app/modules/drone_control/proximity_monitor.py:75-83 | the running choice is the lexicographic minimum of (distance, id) |
| Proximity.Evaluate | backend/app/modules/drone_control/proximity_monitor.py:28-72 | every drone gets exactly the alert fields of its nearest eligible neighbour within the limit, or cleared ones |
| Proximity.AlertIffNear | backend/app/modules/drone_control/proximity_monitor.py:28-72 | a drone shows an alert if and only if another eligible drone is within the limit, and its intruder shows one too |
| Proximity.EligibleIff | backend/app/modules/drone_control/proximity_monitor.py:84-106 | a drone counts if and only if it has a numeric position other than (0, 0) and was updated at most the age limit ago; left alone it drops out for good |
| Proximity.NearIff | backend/app/modules/drone_control/proximity_monitor.py:35-50 | a pair is near for both or neither: both count and their distance, from the lower id to the higher, is at most the limit |
| Proximity.AlertFields | backend/app/modules/drone_control/proximity_monitor.py:53-72 | the stored fields agree: alert and manual control together, with the nearest drone and its rounded distance |
| Proximity.SameRight | backend/app/modules/drone_control/proximity_monitor.py:35-45 | what is right for a drone does not depend on anyone's alert fields |
| Proximity.StateManager.InitDrone | backend/app/modules/drone_control/state_manager.py:50-52 | registers or resets one drone; the stored alerts stay right if and only if no other drone shows it as its intruder |
| Proximity.StateManager.RemoveDrone | backend/app/modules/drone_control/state_manager.py:54-58 | removes one drone and re-evaluates nothing; same condition for the stored alerts |
| Proximity.StateManager.ApplyPatch | backend/app/modules/drone_control/state_manager.py:98-109 | stores the fields that differ, and reports whether any did |
| Proximity.StateManager.Update | backend/app/modules/drone_control/state_manager.py:64-84 | after every update all stored alert fields equal a recomputation; the notified drones are the updated one and those whose alert fields changed |
| Proximity.WithdrawalKeepsStepIff | backend/app/modules/drone_control/state_manager.py:50-58 | after a removal or re-registration the stored alerts stay right if and only if no other drone shows that drone as its intruder |
| FlightModel.HandledKeeps | backend/app/modules/drone_control/mission_simulator.py:358-478 | commands keep index, battery and avoidance bounds; only a new target mission resets the index |
| FlightModel.TickKeeps | backend/app/modules/drone_control/mission_simulator.py:533-817 | a tick advances the waypoint index by at most one, never raises the battery and moves the borrowed altitude by at most 3*dt |
| FlightModel.DeltaBounds | backend/app/modules/drone_control/mission_simulator.py:801-805 | the borrowed altitude moves towards its target, never past it |
| FlightModel.BiasBounds | backend/app/modules/drone_control/mission_simulator.py:767-797 | the altitude asked for stays within the avoidance step, and is zero without a conflict |
| FlightModel.RunKeeps | backend/app/modules/drone_control/mission_simulator.py:316-478 | over every run of commands, ticks, fence breaches and home changes: index in 0..length, battery in 0..100 and never rising, offset in 0..15 |
| FlightModel.EveryFlight | backend/app/modules/drone_control/mission_simulator.py:204-262 | the same from the start of every flight, and above ground unless a mission or command asks for less |
| FlightModel.EveryFlightNeverRaises | backend/app/modules/drone_control/mission_simulator.py:204-262 | from the start of every flight no tick raises unless a landed flight was disarmed |
| FlightModel.FiftyCalmStepsSuffice | backend/app/modules/drone_control/mission_simulator.py:801-805 | fifty conflict-free avoidance steps, however spread over a run, bring the borrowed altitude within 1e-9 of zero |
| FlightModel.RaisesIff | backend/app/modules/drone_control/mission_simulator.py:590-596 | a tick raises IndexError if and only if a climb reaches its target with the mission already finished |
| FlightModel.RunNeverRaises | backend/app/modules/drone_control/mission_simulator.py:364-378 | no tick of a run raises unless a landed flight was disarmed |
| FlightModel.RestartAfterMissionRaises | backend/app/modules/drone_control/mission_simulator.py:364-378 | emergency stop, disarm and takeoff drained together on a finished mission: whatever altitude the climb aims for, some undisturbed tick later raises |
| FlightModel.ExactlyOneGivesWay | backend/app/modules/drone_control/mission_simulator.py:773-781 | of two drones in conflict exactly the one with the higher id gives way |
| FlightModel.ConflictIff | backend/app/modules/drone_control/mission_simulator.py:773-784 | avoidance is active if and only if a drone in range and in the layer has a lower id |
| FlightModel.RunOverground | backend/app/modules/drone_control/mission_simulator.py:358-817 | over every run whose commands ask for no negative altitude the drone never goes below ground |
| FlightModel.StepSinksIff | backend/app/modules/drone_control/mission_simulator.py:559-754 | a physics step takes a drone below ground if and only if its vertical target lies there and within reach |
| FlightModel.GoesUndergroundIff | backend/app/modules/drone_control/mission_simulator.py:533-817 | a whole tick ends below ground if and only if no manual override holds, the step sinks below it and collision avoidance does not move the altitude in the same tick |
| FlightModel.NegativeGotoGoesUnderground | backend/app/modules/drone_control/mission_simulator.py:450-468 | nothing rejects a negative target: given on the ground, the next takeoff ends at it |
| FlightLaws.LandingLands | backend/app/modules/drone_control/mission_simulator.py:734-747 | landing sinks 0.15 m a tick, scaled, until at most 5 cm are left; from then on the flight is landed, disarmed and at altitude 0 |
| FlightLaws.LandCommandLands | backend/app/modules/drone_control/mission_simulator.py:407-409 | the command to land, whatever the flight was doing: the altitude never rises and the flight is landed after the computed number of ticks |
| FlightLaws.ClimbReaches | backend/app/modules/drone_control/mission_simulator.py:573-596 | a climb rises 0.25 m a tick, scaled, and ends flying at exactly its target altitude |
| FlightLaws.TakeoffCommandClimbs | backend/app/modules/drone_control/mission_simulator.py:369-379 | takeoff climbs to the first waypoint's altitude, or the one asked for, or 30 m |
| FlightLaws.LegAltitude | backend/app/modules/drone_control/mission_simulator.py:629-632 | on a leg the altitude moves at most 0.4 m a tick, scaled, towards the waypoint's and never past it |
| FlightLaws.LegTurns | backend/app/modules/drone_control/mission_simulator.py:611-622 | the heading turns the shorter way by at most 2.5 degrees a tick, scaled; a smaller turn ends on the bearing |
| FlightLaws.LegMoves | backend/app/modules/drone_control/mission_simulator.py:618-628 | the drone flies along its new heading at the leg's speed, never past the waypoint |
| FlightLaws.ArrivesIff | backend/app/modules/drone_control/mission_simulator.py:641-663 | the next leg begins if and only if the waypoint is near or passed and its altitude within 3 m; after the last one the flight holds |
| FlightLaws.PassedIff | backend/app/modules/drone_control/mission_simulator.py:650-657 | a waypoint is passed if and only if the leg is longer than a metre and the drone is beyond the line through the waypoint across the leg |
| FlightLaws.LegArrives | backend/app/modules/drone_control/mission_simulator.py:598-663 | a flight on course for its waypoint arrives, in every geography where straight flight keeps its course |
| FlightLaws.HomingMoves | backend/app/modules/drone_control/mission_simulator.py:711-732 | the direct way home: course, distance flown, sinking within 50 m, touching down within 5 m and below 2 m |
| FlightLaws.RouteMoves | backend/app/modules/drone_control/mission_simulator.py:687-710 | a retraced point: distance flown, altitude, and when it is done with |
| FlightLaws.ReturnEndsHome | backend/app/modules/drone_control/mission_simulator.py:513-732 | the command to return, directly or along the visited waypoints: the flight ends landed within 5 m of home |
| FlightLaws.BreachEndsHome | backend/app/modules/drone_control/mission_simulator.py:900-907 | after any run, a flight sent home by an enforced fence ends landed within 5 m of home |
| FlightLaws.RetracesVisited | backend/app/modules/drone_control/mission_simulator.py:513-529 | returning as flown visits the waypoints already reached in reverse, at their altitudes |
| FlightLaws.SideStepSeparates | backend/app/modules/drone_control/mission_simulator.py:786-815 | alone with a drone it gives way to, a flight steps straight away from it, at least a metre a tick |
| FlightLaws.BiasIs | backend/app/modules/drone_control/mission_simulator.py:773-784 | the altitude asked for is the largest of 15 m * (1 - distance / 40 m) over the drones to give way to, and zero without any |
| FlightLaws.BorrowedMoves | backend/app/modules/drone_control/mission_simulator.py:799-805 | the borrowed altitude moves 0.3 m a tick towards the altitude asked for, and the drone with it |
| FlightLaws.ManualMoves | backend/app/modules/drone_control/mission_simulator.py:533-557 | one tick of override: displacement by the velocity, positive z downwards, never below ground |
| FlightLaws.OverrideHolds | backend/app/modules/drone_control/mission_simulator.py:410-421 | a velocity command holds for its duration, takes a returning flight out of its return and ends by itself |
| FlightLaws.HoverHolds | backend/app/modules/drone_control/mission_simulator.py:665-685 | paused holds position and altitude, guided flies 0.4 m a tick and holds altitude |
| FlightLaws.BatteryPerTick | backend/app/modules/drone_control/mission_simulator.py:533-731 | 0.0015 percent a tick while flying, returning or overridden, half of it hovering, nothing otherwise |
| FlightLaws.MissionResumes | backend/app/modules/drone_control/mission_simulator.py:380-403 | loitering or guiding a mission and going back to automatic resumes it exactly where it was |
| FlightLaws.EmergencyStopGrounds | backend/app/modules/drone_control/mission_simulator.py:471-478 | an emergency stop puts the flight on the ground, where ticks leave it |
| FlightLaws.GotoRedirects | backend/app/modules/drone_control/mission_simulator.py:450-470 | a new target becomes the leg being flown; the legs before and after it stay |
| FlightLaws.ProfileReaches | backend/app/modules/drone_control/mission_simulator.py:422-449 | a profile changes the legs still to fly and no other |
| FlightLaws.Refused | backend/app/modules/drone_control/mission_simulator.py:358-478 | which commands leave the flight as it was |
| FlightLaws.ModesAreCommands | backend/app/modules/drone_control/mission_simulator.py:380-403 | the modes RTL, LAND and AUTO on the ground are the commands of the same meaning |
| FlightLaws.DisarmUndoesArm | backend/app/modules/drone_control/mission_simulator.py:359-368 | disarming an armed flight gives back the idle one |
| FlightLaws.OnTheGround | backend/app/modules/drone_control/mission_simulator.py:364-470 | a landed flight can be disarmed for another takeoff, and a target given on the ground waits for it |
| FlightLaws.ConflictsWhen | backend/app/modules/drone_control/mission_simulator.py:773-781 | the give-way condition: under 40 m, under 8 m of altitude, id not lower |
| FlightLaws.StartsAtHome | backend/app/modules/drone_control/mission_simulator.py:204-262 | the initial state; time compression held between 0.1 and 20 |
| SimulatedFlight.SimFlight.EnterRtl | backend/app/modules/drone_control/mission_simulator.py:513-529 | the route back is the visited waypoints in reverse, or empty for the direct way |
| SimulatedFlight.SimFlight.HandleCommand | backend/app/modules/drone_control/mission_simulator.py:358-478 | every command has the effect the step function gives it |
| SimulatedFlight.SimFlight.ApplyCollisionAvoidance | backend/app/modules/drone_control/mission_simulator.py:756-815 | borrowed altitude and side step of one avoidance |
| SimulatedFlight.SimFlight.TickOnce | backend/app/modules/drone_control/mission_simulator.py:559-754 | one whole tick, including the case that raises |

## Left out

- PathSimplify.Rdp: the deviation is an arbitrary function; where the recursion does not end, no result is modelled (the code then exhausts the call stack).
- RayCasting.PointInPolygon: reals, so rounding of the crossing latitude is not modelled.
- FleetAssignment.MakeProblem: the flat-earth distance is an arbitrary non-negative function.
- AssignmentOptimum.MinimumIsOptimalAssignment: needs at least one drone; without drones no target can be served.
- ConnectRuns.SocketsOfGuardedRun: opening a link is one step (a signing set-up that raises after the socket opened is not modelled), closing never fails, and sending the stream requests belongs to the heartbeat step; HF modem adapters (also removed when a race is lost), home-point tasks and command controllers are not modelled.
- ConnectRace.ConnectionManager.ReaderStopped: a read loop serves its own link; it looks the link up on its first step, so a registration changed between the commit and that step, which would make it serve another entry or fail, is not modelled.
- ConnectRace.RegistrationEndsIff: simulated flights have no identity, so attaching one over another counts as no change.
- ConnectRace.ConnectionManager.TryCommit: one step, because the Redis client it fetches is cached and the fetch does not suspend.
- ProbeRace.Verdict: the connecting task itself is not cancelled from outside.
- TokenLife.RevokedSessionsStayRevoked: handlers are atomic and Redis reachable; the branches that let requests pass when Redis fails are not modelled. Roles, cookies, password checks and lockouts are not either.
- RateLimiter.RateLimiter.Check: one pipeline call is one step; actions and identifiers are one client key.
- AuditChain.AuditLogger.Log: the advisory lock makes an append one step; a failed write, which leaves the log as it is, is not modelled. A stored record is assumed to read back with the same canonical JSON; `detail` passes through a jsonb column, which does not keep every number as written (a large float may come back as an integer, and the row would then be reported).
- FleetRoute.AssignFleet: a solver that raises instead of answering, and the rounding of distances, are not modelled.
- BackupDumps.NewestDumpIsCurrent: one dump at a time, file names in the order of their dumps, rows already in their JSON form; files removed by hand and the MinIO copy are not modelled.
- Restore.RestoreTables: one transaction; foreign-key errors, id sequences, temporal columns and the switch that disables automatic restores are not modelled.
- CopyParser.ParseFile: int(), float() and json.loads are arbitrary readers, and the values they give are represented by the text they print as.
- CopyParser.RoundTrip: names without spaces, commas, quotes or parentheses, numbers printed without backslashes or control characters; white space is trimmed by the ASCII and Latin-1 white-space characters only.
- TemplateSearch.MatchTemplate: requires a positive sampling step; the tracker's template learning and motion estimate (`trackStep`) and the conversion to grey are not modelled.
- Proximity.Evaluate: one reading of the clock per evaluation; positions that are not numbers are never eligible, and not-a-number values do not occur.
- Proximity.StateManager.RemoveDrone: the callbacks registered for removals are not modelled; the state table does not depend on them.
- Proximity.StateManager.Update: runs without interleaving with other updates; listeners and locks are not modelled.
- FlightModel.RestartAfterMissionRaises: a flight without borrowed altitude, other traffic or manual override during the climb.
- FlightLaws.ReturnEndsHome: undisturbed ticks without other traffic, in geographies where moving along the bearing to a place shortens the distance to it by as much; great-circle formulas meet that up to rounding.
- FlightLaws.SideStepSeparates: one other drone; the pushes of several are summed and may cancel.
- FlightModel.TickKeeps: waypoints carry well-typed values; pitch, roll, speeds and throttle are display values and left out.
- Signatures, encryption and upload of dumps, object storage, the scheduler and the restore notifications.
- HTTP routes, WebSockets, message queues, search indexing, e-mail, user interface, database models.
- The CP-SAT and QAOA solvers, command acknowledgement timing, pymavlink encoding, serial ports and video capture.
