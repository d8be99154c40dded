# OpenIntellegence: a verified model

OpenIntellegence collects threat intelligence and acts on it. Around its plain record keeping it holds a number of small
protocols and algorithms whose correctness spans many calls. This project models them and proves what they promise, over
all inputs, all runs or all reachable states.

Code that changes state step by step is modelled by classes and methods with loops; each method is proved equal to a
specification function of its inputs and the old state, and the promises are lemmas about these functions and about runs
of them. The modules named after histories, replies, answers, blocks, rows and evidence retell tables and replies from
the requests, receipts and records alone, without the functions that compute them. Every HTTP handler and every worker
transaction is one atomic step. `dafny verify dfyconfig.toml` checks everything.

| file | component |
|---|---|
| `GraphTraversal.dfy`, `GraphAnswers.dfy` | bounded search of the relationship graph |
| `RateLimiting.dfy`, `RateReplies.dfy` | the two sliding-window limiters and their common specification |
| `EndpointIntents.dfy`, `IntentSafety.dfy`, `IntentHistory.dfy`, `IntentReplies.dfy`, `SweepTransparency.dfy`, `SweepTrails.dfy`, `ControlPlane.dfy` | endpoint intents: approval, command, acknowledgement, expiry sweep |
| `OutboxDelivery.dfy`, `WorkerSeparation.dfy`, `LeaseSafety.dfy`, `LeaseBound.dfy`, `AttemptBounds.dfy`, `DeliveryHistory.dfy`, `OutboxWorkers.dfy` | outbox delivery with leases and retries, and the internal worker |
| `AlertAggregation.dfy`, `AlertChains.dfy`, `AlertBlocks.dfy` | alert aggregation by cooldown and hourly fingerprint |
| `SoftwareInventory.dfy`, `InventoryReconciliation.dfy`, `AssetExposure.dfy`, `ExposureReconciliation.dfy`, `ExposureEvidence.dfy` | software inventory and vulnerability exposure |
| `OrderedUnion.dfy`, `Replay.dfy`, `FeedMerge.dfy`, `IngestPipeline.dfy`, `FeedReplay.dfy`, `FeedContents.dfy`, `FeedRows.dfy`, `ExploitReplay.dfy` | merging feed records |
| `Orchestration.dfy`, `OrchestrationSafety.dfy`, `OrchestrationHistory.dfy` | automation runs from proposal to dispatch |
| `EndToEnd.dfy` | handlers and outbox workers on one table |
| `AgentClient.dfy`, `AgentReplies.dfy` | command polling by the endpoint agent |
| `TextScanner.dfy`, `CveIds.dfy`, `GroundedAnswers.dfy`, `RetrievalOrder.dfy` | CVE extraction, retrieval, the citation contract |
| `Options.dfy`, `Sequences.dfy`, `Decimals.dfy` | shared helpers |

## Where the code does not keep what one would expect

Each of these is proved, with the exact condition or a concrete run.

- The `truncated` flag of a traversal stays false when the edge cap is met exactly at the end of a hop, although edges are
  missing (`SilentCutExactly`, `SilentCutHappens`).
- Node keys are ambiguous as soon as a kind or an id holds a colon (`NodeKeyUnambiguousExactly`), and alert fingerprints as
  soon as an entity type holds a bar (`FingerprintsAgreeExactly`, `SharedFingerprintMergesEntities`,
  `SharedFingerprintHappens`); then triggers are lost to another entity's alert (`CountedExactly`, `GroupedExactly`).
- `cancelled` is not final: approvals never look at the current state (`CancelledLeftByApproval`, `CancelledRevives`).
- The sweep leaves decisions, polled lists, recorded results and effective states alone only in runs that accept no
  cancellation after the window closed. Replies tell more of it: a late acknowledgement is refused before the sweep and
  answered after it (`LateAckTells`), and a refused acknowledgement aborts the agent's poll. The audit trail of an intent
  shows a sweep even after a late approval. Each level has its exact condition (`SweepsUnobservableExactly`,
  `RepliesHideSweepsExactly`).
- `deliver` never checks its lease. Final rows stay final only if batch size times the longest delivery fits in 120 s
  (`LeaseBoundExact`), and only then does every write find the row as it was loaded (`FreshWritesExactly`); the shipped
  defaults do not fit (`DefaultsAreNotTimely`). Who may change which row, and how often it is tried, does not depend on
  time (`WorkerSeparation.OnlyOwnerChanges`, `AttemptsStayBounded`).
- With a limit below one the in-memory limiter fails with an index error where the script refuses (`LimitersAgree`), and
  their reported waits can differ by a second (`ResetsDiffer`).
- A vulnerability that returns after its exposure was resolved is never recorded again, and every heartbeat that sees it is
  rolled back (`RecomputeSucceedsExactly`, `ReturnIsNeverRecorded`, `ReinstallIsRefused`).
- A known-exploited vulnerability of critical severity is due a week later than one that is not known to be exploited
  (`KevDeadlineExactly`).
- A software row without version that is shadowed by another of its key stays active for ever (`ActiveKeysExactly`).
- A feed delivered again by another run leaves a trace exactly when it brings an exploit, or when the last record of some
  CVE or indicator has no `observed_at` and is stored at another time (`AnotherRunReplaysExactly`). Besides the run, a replay
  moves exploits to CVEs that became known later and lifts these (`ReplayMovesExploit`, `ReplayBesidesRunsExactly`).
- One approval is enough to make an automation run ready for dispatch, and it may be the requester's own; the same actor
  can then dispatch it (`RequesterMayDispatch`).
- The agent forgets what a poll triggered before it broke off, and the lowest nonces once there are more than its file
  holds (`RememberedExactly`, `AbortedPollRepeats`, `AtMostOnceExactly`).
- After its limit was lowered, a client may have to wait for longer than it is told (`AdmittedAfterExactly`).
- `docs/endpoint-intents.md` says that an intent stays undelivered whatever its approvals, and that the requester can never
  be an approver. In the code `publish_command` delivers `collect_inventory`, and a requester's approval is recorded and
  rejects the intent for good (`RequesterSpoilsApproval`). The model follows the code.

## Modelling decisions

- A late acknowledgement marks the command and then raises; the session rolls back (`app/db/base.py:80-89`), so it is no
  change at all. A broken unique constraint likewise undoes the whole transaction.
- A row claimed by a delivery worker is a copy; writing back changes only the columns that differ from the copy as loaded,
  on whatever the row holds by then. Sessions keep their objects after a commit (`app/db/base.py:74`).
- A new vulnerability has maturity `unknown`, the default of the column (`app/db/models.py:196-198`), when its first record
  is merged. In the code the attribute is still unset until the row is flushed, so a first record that carries a maturity
  has nothing to be compared with; the model takes the column's default.
- The hash of an alert fingerprint and the printed hour are taken as injective; the hashed text itself is modelled.
- Clocks are integers that never step back within a run (microseconds for alerts, seconds elsewhere); the rate limiters use
  real numbers instead of floating point. One clock serves all parties, and a handler reads it once.
- Identifiers, nonces, tokens and sorted-set members are fresh values given from outside.

## Model

| member | source | states |
|---|---|---|
| `GraphTraversal.NodeKeyInjective` | app/api/v1/graph.py:17-19 | Two entities whose kinds hold no colon have different node keys unless they are the same entity. |
| `GraphTraversal.NodeKeyUnambiguousExactly` | app/api/v1/graph.py:17-19 | A node key belongs to one entity only if and only if neither kind nor id of that entity holds a colon: with colons, keys collide. |
| `GraphTraversal.BallIsDistance` | app/api/v1/graph.py:86-169 | The set of entities grown hop by hop is the set of entities joined to the seed by a walk of at most that many edges. |
| `GraphTraversal.Record` | app/api/v1/graph.py:129-166 | One hop enters its rows in both tables and yields exactly their ends not visited before as the next frontier. |
| `GraphTraversal.Traverse` | app/api/v1/graph.py:50-201 | For every table and query the loop returns exactly the first `max_edges` edges of the hop-by-hop order, with the nodes, depth and flag that go with them. |
| `GraphTraversal.EdgesCompleteExactly` | app/api/v1/graph.py:86-169 | The answer holds all visible edges in range if and only if there are at most `max_edges` of them. |
| `GraphTraversal.TraversalComplete` | app/api/v1/graph.py:86-169 | Not truncated and fewer than `max_edges` edges: the edges are all visible edges with an end at distance at most depth - 1, the nodes all entities at distance at most depth. |
| `GraphTraversal.TruncatedIsHonest` | app/api/v1/graph.py:117-127 | `truncated` implies exactly `max_edges` edges and at least one edge in range missing. |
| `GraphTraversal.SilentCutExactly` | app/api/v1/graph.py:86-87 | An edge is missing without the flag if and only if the cap is met exactly at the end of a hop before the last one that has edges. |
| `GraphTraversal.SilentCutHappens` | app/api/v1/graph.py:86-87 | A chain of two edges asked for with two hops and one edge: the second edge is dropped and the flag stays false. |
| `GraphTraversal.TraversalSound` | app/api/v1/graph.py:86-201 | Cut or not: at most `max_edges` distinct visible edges, nodes are the seed and the ends of these edges, each joined to the seed by returned edges in at most `depth_reached` hops, itself at most depth. |
| `GraphTraversal.DepthReachedIsLeast` | app/api/v1/graph.py:168-169 | `depth_reached` is the least number of hops that accounts for every returned edge. |
| `GraphTraversal.NodesShowFirstLabels` | app/api/v1/graph.py:17-46 | For all kinds: every node shows the first entity with its key and the first label, among all returned edges, that says more than the id of its entity and than the id of the node. |
| `GraphTraversal.EnrichedLabelStays` | app/api/v1/graph.py:28-46 | A label once enriched is never changed by further edges. |
| `GraphAnswers.EdgesShowRelationships` | app/api/v1/graph.py:142-160 | Every returned edge is shown from its source to its target, with type, confidence and evidence as stored, both ends are among the nodes, and the edge belongs to the tenant or to none. |
| `GraphAnswers.CapKeepsFirst` | app/api/v1/graph.py:116-127 | The edge cap drops no edge in favour of one that takes more hops, or as many and stands behind it in the order of the query. |
| `GraphAnswers.LabelsComeFromEvidence` | app/api/v1/graph.py:22-46 | A node shows a label that the evidence of a returned edge gives to an end with its key, and its id only if no returned edge gives it another one. |
| `RateLimiting.SlidingWindowBound` | app/core/ratelimit.py:99-111 | Over every run on a clock that never steps back and for every end T, at most `limit` requests of an identity are admitted in (T - window, T]. |
| `RateLimiting.ResetsDiffer` | app/core/ratelimit.py:18-40 | On a refusal the two reported waits differ by one second exactly when the remaining time is a whole number of seconds, and not at all otherwise. |
| `RateLimiting.LimitersAgree` | app/core/ratelimit.py:18-111 | On every request of every run the script and the in-memory limiter give the same decision and count, except that with a limit below one and nothing live the in-memory one fails with an index error. |
| `RateLimiting.AdmittedAfterExactly` | app/core/ratelimit.py:99-111 | A refused client, alone, is admitted after a wait if and only if the admission that stands `limit` places from the end of its live ones has left the window by then. |
| `RateLimiting.WaitIsEnough` | app/core/ratelimit.py:30-40 | A refused client that waits as told, alone, is admitted if and only if it has as many live admissions as its limit, or, with more of them under a limit lowered since, enough of these have left the window by then. |
| `RateLimiting.ScriptState` | app/core/ratelimit.py:18-30 | What the script finds after its removal is exactly the live admissions, whether the key was present or had expired. |
| `RateLimiting.RemoveIsLive` | app/core/ratelimit.py:22-24 | Removing scores up to the cutoff leaves the sorted set of the live admissions. |
| `RateLimiting.KeptUntil` | app/core/ratelimit.py:26-34 | `EXPIRE` never loses a live admission: a key that ran out stands for an empty window. |
| `RateLimiting.Decide` | app/core/ratelimit.py:99-111 | The decision of the in-memory limiter on its pruned list equals the one on the full admission history. |
| `RateLimiting.InMemoryRateLimiter.Check` | app/core/ratelimit.py:99-111 | The call replies as the full history demands, stores exactly the last window of it, and leaves other identities alone. |
| `RateLimiting.SlidingWindowLua` | app/core/ratelimit.py:18-40 | The script replies as the full history demands and leaves the sorted set of the live admissions. |
| `RateLimiting.RateLimiter.Check` | app/core/ratelimit.py:72-86 | The same for the script under its key, with the time to live kept. |
| `RateReplies.RepliesAddUp` | app/core/ratelimit.py:18-40 | From the replies alone: a client is allowed if and only if fewer of its requests than its limit were allowed in the window; the count is theirs, with its own if allowed; the wait on a refusal is the time until the oldest of them leaves, in whole seconds rounded up. |
| `RateReplies.MemoryAddsUp` | app/core/ratelimit.py:99-111 | The same of the in-memory limiter, whose wait is the next whole number of seconds above that time, and which fails exactly where the limit is below one and nothing is counted. |
| `IntentSafety.StepKeeps` | app/api/v1/endpoint_intents.py:33-64 | Every handler and every sweep keeps the invariant that ties intents, audit rows and commands together. |
| `IntentSafety.ApprovalSafety` | app/api/v1/endpoint_intents.py:53-58 | In every reachable state: `approved`, or a command, implies two recorded approvers other than the requester; an approved intent has no approval by its requester; a cancelled one has no command; no approval is recorded twice. |
| `IntentSafety.RequesterSpoilsApproval` | app/services/endpoint_intents.py:14-20 | Once the requester has approved, no continuation of the run ever finds the intent approved. |
| `IntentSafety.ExpiredStays` | app/api/v1/endpoint_intents.py:53-64 | `expired` is absorbing. |
| `IntentSafety.CancelledLeftByApproval` | app/api/v1/endpoint_intents.py:53-58 | `cancelled` is left if and only if the request approves that intent, within its tenant, by an actor with no approval of it on record. |
| `IntentSafety.CancelledRevives` | app/api/v1/endpoint_intents.py:53-58 | Two further approvals in time move a cancelled intent to `approved`. |
| `IntentSafety.IntentCommandAgreement` | app/api/v1/platform.py:362-467 | In every reachable state `delivery_state` is not_dispatched exactly when there is no command and otherwise equals the state of the one command; no result is recorded at or after expiry. |
| `IntentSafety.ClosedCommandStays` | app/api/v1/platform.py:434-467 | A command that is no longer available never changes again. |
| `IntentSafety.SweepTwice` | app/workers/intent_expiry.py:22-65 | Sweeping again at the same time changes nothing and counts nothing. |
| `IntentSafety.SweepSettles` | app/workers/intent_expiry.py:22-65 | In a reachable store the sweep settles every intent by its own row alone. |
| `IntentHistory.IntentsFollowRequests` | app/api/v1/endpoint_intents.py:33-64 | After any requests at any times, every intent is what its own requests tell: created by the first valid one, it keeps tenant, agent, kind, requester and expiry of that; the approvers on record are the keys that approved it; two other keys approve, the own key rejects, after expiry nothing counts. |
| `IntentHistory.TrailsFollowRequests` | app/api/v1/endpoint_intents.py:24-64 | The audit rows of an intent are those of its accepted requests and of its expiry, each naming who acted and what was decided, and no others. |
| `IntentHistory.CommandsFollowRequests` | app/api/v1/platform.py:362-467 | The commands are those that were published, in order, each with the state, payload and time that its own agent reported under its nonce while it was open, or lapsed at the first sweep after its expiry. |
| `IntentHistory.TwoOthersApproved` | app/services/endpoint_intents.py:14-20 | Every intent that is approved or commanded was approved by two accepted requests whose keys differ from each other and from the key of the request that created it. |
| `IntentReplies.CreatorIsRequester` | app/api/v1/endpoint_intents.py:33-36 | After an accepted creation and any continuation the intent has its caller as requester and tenant, agent, kind and expiry as asked for. |
| `IntentReplies.AcceptedCreates` | app/api/v1/endpoint_intents.py:33-36 | A creation is accepted if and only if its kind exists, the agent is one of the tenant and the identifier is new. |
| `IntentReplies.RequestIsRecorded` | app/api/v1/endpoint_intents.py:36 | Every intent has exactly one audit row that says who requested it, and that row names its requester. |
| `IntentReplies.ApprovalReply` | app/api/v1/endpoint_intents.py:53-58 | An approval is taken if and only if it comes from within the tenant and from a key that has not approved yet; the reply is the row as it then is. |
| `IntentReplies.CancellationReply` | app/api/v1/endpoint_intents.py:60-64 | A cancellation is taken if and only if it comes from within the tenant while the intent is pending. |
| `IntentReplies.ViewReply` | app/api/v1/endpoint_intents.py:25-52 | A look shows the row within its tenant, and as effective state its state, or expired if it is pending at its expiry or later. |
| `IntentReplies.PublicationReply` | app/api/v1/platform.py:362-414 | A publication is answered with the one command of the intent, new or known, and refused otherwise. |
| `IntentReplies.AcknowledgementReply` | app/api/v1/platform.py:434-467 | An acknowledgement is recorded as the agent says if it names an open command of that agent, with its nonce and in time; otherwise the reply says why not. |
| `IntentReplies.PollReply` | app/api/v1/platform.py:417-431 | A poll returns the oldest commands that are open for that agent at that time, up to ten, in order of issue, and no others. |
| `IntentReplies.SweepReply` | app/workers/intent_expiry.py:22-65 | The sweep closes exactly the intents pending and the commands open at their expiry or later, and reports how many rows of both it changed. |
| `SweepTransparency.SweepsUnobservable` | app/workers/intent_expiry.py:22-65 | Inserting or deleting sweeps anywhere changes nothing observed in a run without telling requests. By gist that is every decision, polled list, recorded result and effective state, and the telling requests are accepted late cancellations; in full it is every reply but the audit trail of a single intent. |
| `SweepTransparency.TellingShows` | app/api/v1/platform.py:378-467 | Where a telling request is made, one inserted sweep changes what is observed: an accepted late cancellation by gist; in full also the acknowledgement or republication of a late command, and the approval of or a look at an intent whose window or command has gone late. |
| `SweepTransparency.SweepsUnobservableExactly` | app/workers/intent_expiry.py:22-65 | Sweeps are unobservable if and only if the run makes no telling request, by gist, and in full but for the audit trail of a single intent. |
| `SweepTransparency.LateAckTells` | app/api/v1/platform.py:454-458 | A late acknowledgement is refused before the sweep and answered after it: these two replies differ. |
| `SweepTrails.TrailsHideSweeps` | app/api/v1/endpoint_intents.py:48-52 | In a run without telling requests the audit trails returned tell of no sweep either, as long as no request looks at an intent that this or an earlier request found pending after its window had closed. |
| `SweepTrails.RepliesHideSweepsExactly` | app/api/v1/endpoint_intents.py:22-64 | All that is returned, replies and audit trails together, hides every sweep if and only if the run makes no telling request and looks at no such intent. |
| `ControlPlane.Tables.CreateIntent` | app/api/v1/endpoint_intents.py:33-36 | The handler makes the table and the reply of the create step. |
| `ControlPlane.Tables.ApproveIntent` | app/api/v1/endpoint_intents.py:53-58 | The handler makes the table and the reply of the approve step. |
| `ControlPlane.Tables.CancelIntent` | app/api/v1/endpoint_intents.py:60-64 | The handler makes the table and the reply of the cancel step. |
| `ControlPlane.Tables.PublishCommand` | app/api/v1/platform.py:362-414 | The handler makes the table and the reply of the publish step, including the replay of an existing command. |
| `ControlPlane.Tables.AcknowledgeCommand` | app/api/v1/platform.py:434-467 | The handler makes the table and the reply of the acknowledge step; a late acknowledgement is rolled back and changes nothing. |
| `ControlPlane.Tables.SweepExpired` | app/workers/intent_expiry.py:22-65 | The two passes over rows selected before either began make the table and the count of the sweep step. |
| `LeaseSafety.StepKeeps` | app/workers/connector_delivery.py:168-229 | With batch size times longest delivery within 120 s, every claim, delivery, crash, dispatch and internal run keeps the lease invariant. |
| `LeaseSafety.WritesAreFresh` | app/workers/connector_delivery.py:199-229 | Over every interleaving each write lands on the row version it was loaded from, before the lease runs out. |
| `LeaseSafety.LeasesAreExclusive` | app/workers/connector_delivery.py:168-197 | No two workers with running leases hold a common row. |
| `LeaseSafety.TimelyKeepsClosed` | app/workers/connector_delivery.py:211-229 | `delivered` and `dead_letter` rows never change again in any timely run. |
| `WorkerSeparation.StepKeeps` | app/workers/connector_delivery.py:158-229 | Every step, timely or not, keeps that workers hold only rows of configured connector actions and that created entities match delivered internal rows. |
| `WorkerSeparation.OnlyOwnerChanges` | app/workers/connector_delivery.py:158-193 | In every run, with no bound on time, a row is changed by a claim or delivery only if its action is a configured connector action, by the internal worker only if it is internal, and never changes its action. |
| `WorkerSeparation.CreatedMatchDelivered` | app/workers/internal_automation.py:13-28 | In every run, with no bound on time, delivered internal rows and created cases and reports correspond one to one, kind by kind. |
| `LeaseSafety.RetryArithmetic` | app/workers/connector_delivery.py:211-227 | Attempts count the deliveries and stay within the maximum m; queued means 0, retry means at least 1 and less than m; m attempts close the row and span at least the sum of the first m - 1 delays. For timely runs, as the count and the span need. |
| `AttemptBounds.AttemptsStayBounded` | app/workers/connector_delivery.py:211-227 | In every run, with no bound on time, a connector row has at most m attempts: none when queued, at least 1 and less than m in retry, less than m while delivering. |
| `DeliveryHistory.RowsFollowDeliveries` | app/workers/connector_delivery.py:168-229 | In every timely run each connector row counts its deliveries, is where the last of their receipts left it, with its dates, error and result, and is leased for 120 s exactly while a claim stands that no delivery has followed. |
| `DeliveryHistory.ReceiptsDecide` | app/workers/connector_delivery.py:211-227 | A row is delivered if and only if its last delivery succeeded; given up if and only if that failed and was not retryable or used up the last attempt; and otherwise waits, unless claimed again, for 30 s doubled with every attempt, an hour at most. |
| `DeliveryHistory.RetriedToTheEnd` | app/workers/connector_delivery.py:220-227 | A row whose deliveries all fail retryably is given up at the last attempt allowed and not before. |
| `DeliveryHistory.ClaimableExactly` | app/workers/connector_delivery.py:168-190 | An idle worker can claim a row if and only if no claim of the last two minutes stands, and it was never delivered, or waits for a retry that is due, or its claim ran out. |
| `DeliveryHistory.InternalRowsFollow` | app/workers/internal_automation.py:13-28 | In every run an internal row waits as inserted until the internal worker takes it, and is then delivered at that time in one attempt with what its action makes; it is never leased, retried or given up. |
| `LeaseSafety.DelaySumClosedForm` | app/workers/connector_delivery.py:150-151 | The sum of the first n delays is 60(2^n - 1) s up to n = 6 and 3780 + 3600(n - 6) s from there on. |
| `LeaseBound.LeaseBoundExact` | app/workers/connector_delivery.py:168-237 | Final rows stay final in every run if and only if batch size times the longest delivery is at most 120 s or no connector is configured. |
| `LeaseBound.FreshWritesExactly` | app/workers/connector_delivery.py:168-237 | Under the same condition, and no other, every write of every run comes within its lease and onto the row version it was loaded from. |
| `LeaseBound.DefaultsAreNotTimely` | app/core/config.py:53-54 | With the shipped batch of 20 and timeout of 10 s, and any connector configured, some run overwrites a delivered row. |
| `OutboxWorkers.Outbox.Select` | app/workers/connector_delivery.py:183-190 | A query ordered by creation and limited takes the oldest matching rows, and leaves one out only when the limit is reached by older ones. |
| `OutboxWorkers.Outbox.Claim` | app/workers/connector_delivery.py:168-197 | Claims the oldest claimable rows, and no other, under one token and a lease of 120 s, and returns them as loaded. |
| `OutboxWorkers.Outbox.Deliver` | app/workers/connector_delivery.py:199-229 | Writes back only the columns that a delivery changes in the copy, onto whatever the row holds now. |
| `OutboxWorkers.Outbox.RunInternal` | app/workers/internal_automation_runner.py:12-34 | Selects the oldest waiting internal rows and leaves the table and the created entities of one atomic internal step. |
| `OutboxWorkers.Outbox.Process` | app/workers/internal_automation.py:13-28 | One row becomes delivered with its case or report, or dead-lettered when its run is not dispatched. |
| `OutboxWorkers.ProcessNext` | app/workers/internal_automation_runner.py:29-33 | Processing a batch row by row is processing it at once. |
| `OutboxWorkers.ClaimIsPossible` | app/workers/connector_delivery.py:168-197 | What the claiming transaction selects and leases is, for every table and whatever other workers hold, a step that the lease and separation results range over. |
| `OutboxWorkers.InternalIsPossible` | app/workers/internal_automation_runner.py:12-34 | So is what the internal transaction selects and processes. |
| `AlertAggregation.Active` | app/workers/alert_evaluation.py:84 | The lookup returns the row of the key that triggered last among those since the cutoff, and none only if there is none. |
| `AlertAggregation.FingerprintsAgreeExactly` | app/services/alerting.py:25-35 | Two fingerprints are equal if and only if tenant, rule, severity and hour agree and the joined entity type and id read the same. |
| `AlertAggregation.FingerprintInjective` | app/services/alerting.py:25-35 | Without a separator in entity types a fingerprint determines key, severity and hour. |
| `AlertAggregation.SharedFingerprintMergesEntities` | app/workers/alert_evaluation.py:91-100 | Whenever two triggers of different keys have one fingerprint, the second is counted on the alert row of the first. |
| `AlertAggregation.SharedFingerprintHappens` | app/services/alerting.py:25-35 | With a bar in an entity type that happens, under every rule and in every hour. |
| `AlertAggregation.AlertEvaluationWorker.Aggregate` | app/workers/alert_evaluation.py:82-100 | The cooldown lookup, the insert and its fall-back on the unique fingerprint make the table of one aggregation step. |
| `AlertAggregation.AlertEvaluationWorker.Evaluate` | app/workers/alert_evaluation.py:33-42 | Evaluation makes the table of all its triggers in order, and counts them. |
| `AlertChains.AlertsAreGroupedTriggers` | app/workers/alert_evaluation.py:82-100 | For every run in which no two keys read the same once joined for the hash, the alerts of a key that keeps its severity are exactly the grouping of its own triggers by cooldown and hour, with no table, lookup or fingerprint; cooldowns may change. |
| `AlertChains.AlertsFormChain` | app/workers/alert_evaluation.py:82-100 | Under the same hypotheses two alerts of a key have disjoint intervals further apart than its lowest cooldown and were opened in different hours. |
| `AlertChains.OnlyNewestChanges` | app/workers/alert_evaluation.py:82-100 | Under the same hypotheses a trigger changes at most one stored alert, the newest of its key, by one occurrence, time and payload. |
| `AlertChains.OccurrencesCountTriggers` | app/workers/alert_evaluation.py:86-88 | The occurrences of a key sum to the number of its triggers, whatever becomes of severities, cooldowns and the clock. |
| `AlertChains.TriggersAreCovered` | app/workers/alert_evaluation.py:82-100 | On a clock that never steps back every trigger falls inside the interval of an alert of its key, whatever becomes of severities and cooldowns. |
| `AlertChains.NewestShowsLastTrigger` | app/workers/alert_evaluation.py:85-89 | Under the same hypotheses the newest alert of a key shows the time and payload of the last trigger. |
| `AlertChains.SeverityChangeUpdatesOlderAlert` | app/workers/alert_evaluation.py:95-100 | When severity changes there and back within an hour, outside the cooldown, the older of two alerts is updated: the chain needs a fixed severity. |
| `AlertChains.GroupedExactly` | app/workers/alert_evaluation.py:82-100 | The alerts of every key are the grouping of its triggers, in all runs over a set of keys and severities, if and only if no two of the keys read the same once joined and none has two severities. |
| `AlertChains.CountedExactly` | app/workers/alert_evaluation.py:82-100 | Occurrences count triggers for every key in all such runs if and only if no two of the keys read the same once joined. |
| `AlertChains.PlainNamesUnshared` | app/services/alerting.py:25-35 | Keys without a bar in tenant, rule, severity and entity type never read the same once joined. |
| `AlertBlocks.AlertsShowBlocks` | app/workers/alert_evaluation.py:82-100 | The alerts of a key that keeps its severity and shares no hashed text stand for consecutive blocks of its triggers: each shows title, severity and time of the first, payload and time of the last and their number; a block ends exactly where cooldown and clock hour do. |
| `AlertBlocks.TriggersAreMade` | app/workers/alert_evaluation.py:33-42 | An evaluation triggers once for every candidate of every supported rule, in the order of the rules and of their candidates, and for nothing else. |
| `SoftwareInventory.Inventory.ByKey` | app/services/agents.py:124-129 | The dictionary of stored rows finds the last row of each key. |
| `SoftwareInventory.Inventory.Apply` | app/services/agents.py:110-159 | The two loops make the reconciled table, or change nothing when the unique constraint is broken. |
| `SoftwareInventory.Inventory.MarkRemoved` | app/services/agents.py:155-157 | Exactly the current active rows that were not reported are marked removed. |
| `InventoryReconciliation.ActiveKeysExactly` | app/services/agents.py:110-159 | Active software keys equal the reported keys if and only if no active row is both shadowed by a later row of its key and unreported. |
| `InventoryReconciliation.UniqueKeysNothingStale` | app/services/agents.py:110-159 | Over uniquely keyed rows the active keys equal the reported keys. |
| `InventoryReconciliation.StaleRowHappens` | app/services/agents.py:129 | Two rows without version and an empty report: the shadowed one stays active. |
| `InventoryReconciliation.NoRowIsLost` | app/services/agents.py:131-157 | Every stored row stays in place with its key, vendor and first_seen, and is touched only as its key and the report say. |
| `InventoryReconciliation.CpeIsLastGiven` | app/services/agents.py:135-139 | A row takes the last CPE reported for its key, and keeps its own if none was. |
| `InventoryReconciliation.NewRowsAreReported` | app/services/agents.py:141-153 | Every inserted row is a reported item of a key the table did not hold, with its vendor and CPE and this time as first and last sighting. |
| `InventoryReconciliation.ApplySucceedsExactly` | app/services/agents.py:141-159 | A report is refused if and only if it names twice a version the table does not hold. |
| `InventoryReconciliation.KeysStayUniqueExactly` | app/services/agents.py:141-153 | Keys stay unique if and only if no new key, with or without version, is reported twice. |
| `InventoryReconciliation.ReportTwiceIsOnce` | app/services/agents.py:110-159 | Applying the same report again at the same time changes nothing. |
| `AssetExposure.BuildIndexes` | app/services/agents.py:208-209 | The loops build the two indexes: the CPE set, and names in order of first appearance with their last rows. |
| `AssetExposure.FindMatch` | app/services/agents.py:224-240 | The search through the indexes returns the first CPE match, or else the first related name with its evidence. |
| `AssetExposure.ExposureTable.Recompute` | app/services/agents.py:172-258 | The recomputation makes the recomputed table and count, or changes nothing when the unique constraint is broken. |
| `AssetExposure.Heartbeat` | app/api/v1/assets.py:327-329 | Inventory and exposures are written in one transaction: both or neither. |
| `ExposureReconciliation.MatchIsNaive` | app/services/agents.py:221-240 | The indexed search finds a match if and only if some active row is affected by CPE or name, and reports the CPE rule exactly when it applies. |
| `ExposureReconciliation.OpenExposuresAreAffected` | app/services/agents.py:192-258 | After a recomputation the open exposures are exactly the vulnerabilities that affect an active row. |
| `ExposureReconciliation.AffectedIdsAreNaive` | app/services/agents.py:218-246 | The matched set is the naive set of vulnerabilities affecting some active row. |
| `ExposureReconciliation.AddedExposures` | app/services/agents.py:246-253 | A new exposure belongs to a matched vulnerability without open exposure, with its match, detection time and deadline. |
| `ExposureReconciliation.KevDeadlineExactly` | app/services/agents.py:162-169 | The known-exploited deadline is no later than the one by severity if and only if the severity is not critical; critical vulnerabilities gain seven days. |
| `ExposureReconciliation.RecomputeSucceedsExactly` | app/db/models.py:432-434 | A recomputation is accepted if and only if no resolved exposure matches again. |
| `ExposureReconciliation.ResolvedStays` | app/services/agents.py:254-256 | A resolved exposure keeps its row through every run. |
| `ExposureReconciliation.ReturnIsNeverRecorded` | app/db/models.py:432-434 | Once an exposure is resolved, every later recomputation that matches it is refused. |
| `ExposureReconciliation.ReinstallIsRefused` | app/services/agents.py:192-258 | Install, remove, install again: the third recomputation is refused, for every vulnerability and inventory. |
| `ExposureReconciliation.HeartbeatReconciles` | app/api/v1/assets.py:327-329 | From a uniquely keyed inventory and a report without duplicates: unique keys, active keys equal to the report, and open exposures equal to the naive set. |
| `ExposureEvidence.AffectedExactly` | app/services/agents.py:208-240 | A vulnerability affects an asset if and only if some row not removed has one of its CPEs, or a name that contains its product or is contained in it, whatever the case. |
| `ExposureEvidence.CpeEvidence` | app/services/agents.py:224-227 | A match by CPE names the first CPE of the vulnerability that an active row has. |
| `ExposureEvidence.NameEvidenceIs` | app/services/agents.py:229-236 | A match by name says vendor, product and the name of a row: the first related active row decides the name, and the last one with that name is shown. |
| `ExposureEvidence.AddedExposuresAre` | app/services/agents.py:162-253 | Every added exposure is of a vulnerability that affects the asset and had no open one; it shows its match, is open since now and due in 14 days if known-exploited, else in 7, 14, 30 or 90 by severity, else not. |
| `OrderedUnion.ExtendAssociative` | app/ingest/pipeline.py:57-62 | The ordered union behind source, CPE, tag and name lists is associative. |
| `OrderedUnion.ExtendFromNothing` | app/ingest/pipeline.py:189-191 | Removing repetitions from stored and incoming list in a row is extending the stored list. |
| `Replay.AbsorbTotals` | app/ingest/pipeline.py:155-304 | A row is its old value merged with all that the stream says about its key, independent of other keys. |
| `Replay.TwiceIsOnce` | app/ingest/pipeline.py:155-304 | Tables kept by an associative and idempotent merge do not change when a whole stream is delivered again. |
| `Replay.RerunIsOnce` | app/ingest/pipeline.py:155-304 | Nor when a delivery that broke off is started over. |
| `FeedMerge.FirstKnown` | app/ingest/pipeline.py:229-241 | The link goes to the first of the listed CVEs that is known, and to none if and only if none is known. |
| `IngestPipeline.FromKeys` | app/ingest/pipeline.py:189-191 | Keeps the first of each element in order. |
| `IngestPipeline.MergeSources` | app/ingest/pipeline.py:57-62 | Appends the source if and only if it is not there yet. |
| `IngestPipeline.SetColumns` | app/ingest/pipeline.py:171-178 | Sets every listed column the payload gives and leaves the others alone. |
| `IngestPipeline.Pipeline.UpsertVulnerability` | app/ingest/pipeline.py:155-203 | The field-by-field update merges the record into the stored row, or makes the record the row. |
| `IngestPipeline.Pipeline.UpsertExploit` | app/ingest/pipeline.py:205-241 | Updates the exploit, links it to the first known CVE and lifts that one to poc. |
| `IngestPipeline.Pipeline.UpsertVictim` | app/ingest/pipeline.py:243-278 | The same for a victim. |
| `IngestPipeline.Pipeline.UpsertIndicator` | app/ingest/pipeline.py:280-304 | The same for an indicator. |
| `IngestPipeline.Pipeline.Run` | app/ingest/pipeline.py:70-136 | However a run ends, fetched = ingested + quarantined; partial means some were quarantined, failed means disabled or broken off; the store is that of all ingested records. |
| `IngestPipeline.IngestStaysTidy` | app/ingest/pipeline.py:155-304 | No list of any row ever repeats an element. |
| `FeedReplay.VulnerabilitiesMerge` | app/ingest/pipeline.py:155-203 | Merging vulnerabilities is associative and idempotent. |
| `FeedReplay.VictimsMerge` | app/ingest/pipeline.py:243-278 | Merging victims is associative and idempotent. |
| `FeedReplay.IndicatorsMerge` | app/ingest/pipeline.py:280-304 | Merging indicators is associative and idempotent. |
| `FeedReplay.ReplayExactly` | app/ingest/pipeline.py:155-304 | Without exploits, ingesting the same records again changes nothing if and only if the last record of every CVE and of every indicator carries `observed_at` or is stored at the same time; victims need nothing. |
| `FeedReplay.RerunExactly` | app/ingest/pipeline.py:70-127 | A run that broke off and is started over ends where one unbroken run ends, whatever the rest brings, if and only if that holds of every CVE and indicator whose last record is a repeated one. |
| `FeedReplay.ExploitReplayIsVisible` | app/ingest/pipeline.py:225 | A stream with an exploit in it leaves a trace when another run delivers it again. |
| `FeedReplay.AnotherRunReplaysExactly` | app/ingest/pipeline.py:70-304 | Any stream delivered again by another run changes nothing if and only if it brings no exploit and meets the condition on `observed_at`. |
| `FeedReplay.ReplayMovesExploit` | app/ingest/pipeline.py:227-241 | Not only the run shows: an exploit linked to its second CVE moves to the first on replay when that became known later. |
| `ExploitReplay.KinReplayExactly` | app/ingest/pipeline.py:155-304 | Any stream with exploits in it, delivered again by any run, keeps everything but exploits and maturities if and only if it meets the condition on `observed_at`. |
| `ExploitReplay.RanksStayExactly` | app/ingest/pipeline.py:205-241 | It moves no maturity if and only if every CVE that an exploit record would be linked to now is rated poc or higher. |
| `ExploitReplay.ExploitsStayExactly` | app/ingest/pipeline.py:205-241 | It moves no link, text, star count or confidence of an exploit if and only if every exploit is linked to the first known CVE of its last record that lists a known one. |
| `ExploitReplay.ReplayBesidesRunsExactly` | app/ingest/pipeline.py:70-304 | So any stream delivered again onto any store changes nothing but the runs of exploits if and only if these three conditions hold. |
| `ExploitReplay.AnyReplayExactly` | app/ingest/pipeline.py:70-304 | And nothing at all if and only if, besides, every exploit was delivered last by the same run as before. |
| `FeedContents.ColumnsAreLastGiven` | app/ingest/pipeline.py:171-178 | After any stream a column holds the last value any feed gave, else the one it held before. |
| `FeedContents.SeverityRatesScore` | app/ingest/pipeline.py:180-183 | After any stream severity is the rating of the stored score. |
| `FeedContents.RatingFollowsScale` | app/ingest/normalize.py:152-164 | The rating is the qualitative scale of section 5 of the CVSS v3.1 specification on scores with one decimal. |
| `FeedContents.MaturityIsHighest` | app/ingest/pipeline.py:195-240 | After any stream the maturity of a vulnerability, stored before or first met in it, is the highest that a CVE record or a linked exploit has called for: it never decreases. |
| `FeedContents.ScalarsFollowRecords` | app/ingest/pipeline.py:166-203 | Score, known-exploited flag, first_seen and last_seen of a CVE, stored before or first met in the stream, follow its own records alone. |
| `FeedContents.VictimColumnsAreLastGiven` | app/ingest/pipeline.py:265-270 | Victim columns hold the last value given, else the one they held before. |
| `FeedContents.VerdictIsLastGiven` | app/ingest/pipeline.py:298-299 | The verdict on an indicator is the last one given, else the one it had before. |
| `FeedContents.ListsAreOrderedUnions` | app/ingest/pipeline.py:57-304 | Each of the six list columns is the stored list extended, in order and without repetition, by all that the stream gives to it. |
| `FeedContents.ListsAreUnions` | app/ingest/pipeline.py:57-304 | So it holds what it held, as a prefix, and exactly what any record since gave to it, nothing twice. |
| `FeedRows.VictimsFollowRecords` | app/ingest/pipeline.py:243-278 | The first record of a victim fixes its name and run, and any record can ask for a review. |
| `FeedRows.SightingsFollowRecords` | app/ingest/pipeline.py:280-304 | The first record of an indicator dates it, and each one dates its last sighting, as observed or else as stored. |
| `FeedRows.MaturityClimbs` | app/ingest/pipeline.py:195-241 | On the ladder unknown, none, poc, functional, weaponized a CVE stands on a rung or further up, after any stream, if and only if it stood there before or a record, or an exploit linked to it when it came, put it there. |
| `FeedRows.LinksFollowRecords` | app/ingest/pipeline.py:227-241 | An exploit is linked to the first CVE listed by its last record with a known one, of those known when that came. |
| `Orchestration.ValidateSteps` | app/api/v1/orchestration.py:97-136 | The loop over the steps returns the objection with the first applicable kind, each action named once. |
| `Orchestration.Orchestrator.CreatePlaybook` | app/api/v1/orchestration.py:164-180 | A playbook is stored only with 1 to 20 acceptable steps. |
| `Orchestration.Orchestrator.FindProposal` | app/api/v1/orchestration.py:186-193 | Finds a run of the tenant with the key if there is one. |
| `Orchestration.Orchestrator.ProposeRun` | app/api/v1/orchestration.py:184-224 | A known key returns its run and changes nothing; a new one makes the run of the propose step. |
| `Orchestration.Orchestrator.ApproveRun` | app/api/v1/orchestration.py:255-281 | The handler makes the table and the reply of the approve step. |
| `Orchestration.Orchestrator.RejectRun` | app/api/v1/orchestration.py:284-305 | The handler makes the table and the reply of the reject step. |
| `Orchestration.Orchestrator.DispatchRun` | app/api/v1/orchestration.py:313-370 | The handler makes the table and the reply of the dispatch step, one row a playbook step. |
| `OrchestrationSafety.AcceptedExactly` | app/services/automation_capabilities.py:23-37 | Steps are accepted if and only if every action is a connector or internal action and available now. |
| `OrchestrationSafety.StepKeeps` | app/api/v1/orchestration.py:97-370 | Every request keeps the invariant that ties playbooks, runs and outbox rows together. |
| `OrchestrationSafety.RowsExactlyWhenDispatched` | app/api/v1/orchestration.py:341-365 | A run has outbox rows if and only if it is dispatched, and then exactly one for each playbook step in index order. |
| `OrchestrationSafety.RowsAreApproved` | app/api/v1/orchestration.py:255-281 | Every outbox row is for an action a worker owns, never an endpoint intent, and its run has enough distinct approvers. |
| `OrchestrationSafety.RowsCarrySteps` | app/api/v1/orchestration.py:346-365 | Each row carries action, target and payload of the playbook step its index names, and tenant and context of its run. |
| `OrchestrationSafety.KeysAreDistinct` | app/db/orchestration_models.py:68 | Idempotency keys of outbox rows are globally distinct, whatever the run identifiers look like. |
| `OrchestrationSafety.FinalStays` | app/api/v1/orchestration.py:284-305 | Rejected and dispatched runs never change again. |
| `OrchestrationSafety.ProposedKeyCreatesNothing` | app/api/v1/orchestration.py:186-194 | A proposed key never creates a second run, whatever happened in between. |
| `OrchestrationSafety.OneRunForKey` | app/db/orchestration_models.py:28-30 | A key of a tenant names one run. |
| `OrchestrationSafety.DispatchAgain` | app/api/v1/orchestration.py:325-337 | Dispatching again, at any later time, creates nothing and answers with the rows of the first dispatch. |
| `OrchestrationSafety.RequesterMayDispatch` | app/api/v1/orchestration.py:209-365 | One approval is enough, it may be the requester's own, and the same actor can then dispatch the run while the connectors it was proposed under stay configured. |
| `OrchestrationHistory.PlaybooksFollowRequests` | app/api/v1/orchestration.py:164-180 | A playbook is stored if and only if its request has one to twenty steps that can all be delivered, and stays as it was. |
| `OrchestrationHistory.RunsFollowRequests` | app/api/v1/orchestration.py:184-370 | After any requests every run is what its own requests tell: proposed once per key from a playbook of the tenant that can be delivered, and waiting, approved, rejected or dispatched as they left it. |
| `OrchestrationHistory.RejectionRejects` | app/api/v1/orchestration.py:284-305 | A rejection of a waiting run leaves it rejected, with the note or the default reason, and for good: whatever follows, it is never dispatched and has no outbox rows. |
| `OrchestrationHistory.ApprovalApproves` | app/api/v1/orchestration.py:255-281 | An approval of a waiting run approves it, by this actor alone and for good: whatever follows, it is approved or dispatched. |
| `OrchestrationHistory.DecisionReply` | app/api/v1/orchestration.py:255-305 | Every other approval or rejection changes nothing and is refused: not found outside the tenant, and as not awaiting a decision within it. |
| `OrchestrationHistory.DispatchReply` | app/api/v1/orchestration.py:313-370 | A dispatch answers with the rows of the run if and only if it is dispatched, or approved and can be delivered now; otherwise it changes nothing and is refused. |
| `OrchestrationHistory.ProposalReply` | app/api/v1/orchestration.py:184-224 | A proposal under a new key makes its run if and only if the playbook is one of the tenant and can be delivered; otherwise it changes nothing and is refused. |
| `OrchestrationHistory.ObjectionsNameFaults` | app/api/v1/orchestration.py:97-136 | Steps are objected to for their worst fault, control plane before unknown before unconfigured, and the objection names all actions with that fault, each once. |
| `EndToEnd.BothSidesRun` | app/api/v1/orchestration.py:313-370 | Requests and worker steps, interleaved freely on one table, are a run of the handlers and a run of the workers, with the same rows and the same dispatched runs: a first dispatch is the one insertion that the workers see. |
| `EndToEnd.EveryRowIsApproved` | app/api/v1/orchestration.py:255-370 | At any time every row of the table is a step of the playbook of a dispatched run with enough distinct approvers. |
| `EndToEnd.WorkIsApproved` | app/workers/connector_delivery.py:158-229 | Every row that a worker changes belongs, at that time, to such a run, and is one that this worker owns. |
| `EndToEnd.InternalIsNeverGivenUp` | app/workers/internal_automation.py:13-18 | The objection of the internal worker to a run that is not dispatched is never raised: internal rows are waiting or delivered, and never dead-lettered. |
| `AgentClient.Client.PollCommands` | endpoint_agent/client.py:66-77 | One poll triggers, acknowledges and counts as the fold over its commands says, and rewrites the nonce file only when it returns normally. |
| `AgentClient.AcksAnswerCommands` | endpoint_agent/client.py:68-77 | A poll that returns normally acknowledges every complete command once, in order, and counts the inventories it triggered. |
| `AgentClient.AllKept` | endpoint_agent/client.py:77 | Up to its size the file keeps every nonce. |
| `AgentClient.LowestForgotten` | endpoint_agent/client.py:77 | Beyond its size the file forgets the lowest nonce. |
| `AgentClient.ForgottenAreLower` | endpoint_agent/client.py:77 | Every nonce that is kept stands above every one that is forgotten. |
| `AgentClient.KeptSize` | endpoint_agent/client.py:77 | The file holds all nonces seen, or as many as its size. |
| `AgentReplies.PollDoes` | endpoint_agent/client.py:66-77 | Up to the first exchange that ends it, and with that, a poll triggers the new collections, answers each complete command as replayed, refused, completed or failed, and counts the acknowledged ones, as file and list alone say. |
| `AgentClient.FewNoncesOnce` | endpoint_agent/client.py:66-77 | With at most as many distinct nonces as the file holds, polls of which the first exchange that is unacknowledged or breaks off comes before anything is triggered, if there is one, trigger the inventory at most once a nonce, whatever lists the server returns. |
| `AgentClient.AtMostOnceExactly` | endpoint_agent/client.py:66-77 | That promise holds for a set of nonces if and only if the file can hold them all. |
| `AgentClient.RememberedExactly` | endpoint_agent/client.py:66-77 | Within the size of the file, what a poll triggered is never triggered by the next one if and only if up to the first exchange that is unacknowledged, or whose heartbeat breaks off, and with it, nothing is triggered. |
| `AgentClient.HarmlessOutcome` | endpoint_agent/client.py:66-77 | That condition on the exchanges says exactly that the poll returns normally or has triggered nothing. |
| `AgentClient.AbortedPollRepeats` | endpoint_agent/client.py:76-77 | A poll that does not return normally is forgotten: the same command triggers the inventory again. |
| `TextScanner.FoundExactly` | app/ingest/normalize.py:117-118 | Where matches cannot overlap, leftmost scanning finds exactly what begins anywhere in the text. |
| `CveIds.ExtractCveIds` | app/ingest/normalize.py:105-119 | The nested loops return the de-duplicated upper-case matches of all texts in order. |
| `CveIds.FoundIsEveryOccurrence` | app/ingest/normalize.py:102-119 | The identifiers found are exactly those that begin at some position of the text. |
| `CveIds.FoundUpper` | app/ingest/normalize.py:102-119 | The case of the text does not matter. |
| `CveIds.ResultsAreIds` | app/ingest/normalize.py:105-119 | Results are well-formed upper-case identifiers without repetition. |
| `CveIds.ExtractRoundTrip` | app/ingest/normalize.py:105-119 | Extracting from the blank-joined result is the identity. |
| `CveIds.ExtractIsUnion` | app/ingest/normalize.py:105-119 | Several values yield the order-preserving de-duplication of what each yields. |
| `CveIds.ExtractedExactly` | app/ingest/normalize.py:105-119 | An identifier is extracted if and only if it occurs in one of the values. |
| `GroundedAnswers.Retrieve` | app/ai/rag.py:106-140 | The loops return the retrieved chunks: exact first, then semantic, keyword only when nothing else, de-duplicated and cut. |
| `GroundedAnswers.Deduplicate` | app/ai/rag.py:131-138 | Keeps the first chunk of each key. |
| `GroundedAnswers.RetrievalIsExactFirst` | app/ai/rag.py:106-140 | At most `top_k` chunks, no key twice, beginning with the known CVEs of the question in its order. |
| `GroundedAnswers.KnownChunksExactly` | app/ai/rag.py:116-123 | The exact chunks are those of the known CVEs that occur in the question. |
| `RetrievalOrder.LongestId` | app/ingest/normalize.py:102 | What is found at the front of a text is the longest identifier that stands there: CVE in any case, a year of 19 or 20, four to seven digits. |
| `RetrievalOrder.IdsInOrder` | app/ingest/normalize.py:105-119 | The identifiers of a text stand in the order in which they first begin in it. |
| `RetrievalOrder.KnownInOrder` | app/ai/rag.py:116-123 | The chunks of known CVEs stand in the order in which the question first names them, each as it is rendered. |
| `RetrievalOrder.ExactFills` | app/ai/rag.py:116-140 | If the known CVEs fill the answer, they are all of it. |
| `RetrievalOrder.DocumentsFollow` | app/ai/rag.py:125-140 | With a model and room left, the answer is the known CVEs and then the nearest documents that still fit, in order and without repeated keys. |
| `RetrievalOrder.DocumentsAreReturned` | app/ai/rag.py:125-140 | Each of these documents has its key in the answer, and everything after the known CVEs is one of them. |
| `RetrievalOrder.NoModelNoDocuments` | app/ai/rag.py:159-164 | Without a model, known CVEs are all of the answer. |
| `RetrievalOrder.VictimsInstead` | app/ai/rag.py:128-140 | Where no CVE is known and there is no model or no document, the answer is the first matching victims without repeated keys. |
| `RetrievalOrder.VictimsOnlyInstead` | app/ai/rag.py:128-129 | Nothing but known CVEs and documents is ever returned otherwise. |
| `GroundedAnswers.PrintedAs` | app/ai/rag.py:229-232 | Chunk number n stands in the context under the label n. |
| `GroundedAnswers.PrintedInOrder` | app/ai/rag.py:229-232 | Consecutive chunks stand one after the other in the context, with an empty line between them. |
| `GroundedAnswers.MarkersAreDigitsInBrackets` | app/ai/grounding.py:11 | A text starts with a marker if and only if it starts with digits in brackets, and the marker is all of them. |
| `GroundedAnswers.MarkersAreCitations` | app/ai/grounding.py:11-17 | The scan for markers misses none and invents none. |
| `GroundedAnswers.AcceptedExactly` | app/ai/grounding.py:13-19 | A generated answer passes if and only if it cites something and every citation in it, wherever it stands, is in range; otherwise the withheld text replaces it. |
| `GroundedAnswers.AcceptedCitationsResolve` | app/ai/grounding.py:13-19 | Every number cited by an accepted answer names a retrieved chunk, the one printed under that number. |
| `GroundedAnswers.LabelReadsBack` | app/ai/rag.py:229-232 | A printed label is scanned back as its number. |
| `Decimals.ValueOfDecimal` | app/ai/rag.py:230 | Reading the digits of a number gives the number. |

## Left out

- SQL, sessions, migrations, HTTP routing and Redis transport: tables are sequences and maps, a transaction is one step.
- Concurrent transactions on one row, other than through leases. Where the code locks the rows it reads, their transactions take turns; `approve_run`, `reject_run` and `dispatch_run` (`app/api/v1/orchestration.py:255-370`), the expiry sweep, the inventory and the feeds take no lock, so that atomic handlers are an assumption there: a concurrent approval and rejection of a run can overwrite each other.
- `replay_dead_letter` (`app/services/dead_letter_replay.py:18`): it inserts a row that the unique constraint of its table forbids.
- `create_alert` by API: it skips the cooldown, so the chain of alerts does not hold for it.
- The queries that find alert candidates, connector calls, feed downloads, embeddings and completions: their results are arbitrary inputs.
- Certificates, password hashing, message authentication and the command envelope: library cryptography.
- Text is ASCII where case or digits matter: Unicode lower case, Unicode digits and normalisation are not part of this model.
- The order of nodes and edges in the response of a traversal, and the parsing of its relationship-type list: the answer is two maps and a set of types.
- The list of polled commands is taken in order of issue, which is the order of their availability times.
- Agents without an asset: both inventory functions return at once.
- A heartbeat's fields other than software, and the stale-agent marking.
- Victim-name and domain normalisation: corner cases of its patterns would only add short case splits.
- API pagination, provenance, correlation scoring and the frontend: each reads or formats one row at a time and keeps no state between calls.
- OutboxWorkers.Outbox.Select: creation times are taken as distinct, so that the order of the table is the order of the query.
- RateLimiting.RateLimiter.Check: the window is positive; a window of zero seconds makes the script's expiry delete its key at once.
- AlertChains.AlertsFormChain: for keys that keep their severity and share no hashed text, without which the grouping fails (see `GroupedExactly`).
- AlertChains.OnlyNewestChanges: under the same hypotheses.
- AlertChains.NewestShowsLastTrigger: under the same hypotheses.
- LeaseSafety.RetryArithmetic: for timely configurations, like all of `LeaseSafety.dfy`; `LeaseBoundExact` says what goes wrong in the others, and `AttemptsStayBounded` what stays true there.
- AgentClient.FewNoncesOnce: for harmless polls (see `RememberedExactly`); an unreadable nonce file is not modelled.
- FeedReplay.RerunExactly: the repeated part brings no exploits; `AnyReplayExactly` covers them when nothing follows the repeated part.
- SweepTransparency.SweepsUnobservableExactly: without the audit trail of a single intent, which `RepliesHideSweepsExactly` adds; trails are bags of rows, without their order.
- The wording of the sentence that replaces a rejected answer: a stand-in takes its place.
- GroundedAnswers.Retrieve: the nearest documents and matching victims are given as lists of which the query takes the first few.
