# Verified model of the control plane's state machines

The control plane keeps several stores in step with background workers that take no locks and open no transactions.
This project models the parts where that is delicate and proves what holds over whole runs:

- **Compute lifecycle** (`Lifecycle`, `ComputeTables`, `ComputeSpec`, `ComputeRuns`, `ComputeTheorems`,
  `ComputeRaces`, `ComputeLeaks`, `ComputeOutcomes`, `ComputeQuota`, `ComputeOvershoot`, `ComputeTick`,
  `ComputeWitnesses`, `ComputeService`). Instance rows carry a status, provider records carry a desired state and a
  time. User requests consult the transition graph; the reconciler does not, it writes whatever the provider's
  clock-driven view says. The two stay in step because of a coupling between status, desired state and elapsed time
  that the code never states; it is stated here (`Lifecycle.Coupled`, and `Lifecycle.LooselyCoupled` for requests
  cut between their two writes) and proved invariant. A run is any list of steps: the stages of overlapping
  `Create` calls, user requests that may be cut, for each listed instance the reconciler's reading of the
  provider's view and its writing of the status as two steps, against a possibly stale listing, clock advance, loss
  of provider records.
- **Webhook deliveries** (`Backoff`, `WebhookQueue`, `WebhookTheorems`, `WebhookOutcomes`, `WebhookDispatcher`).
  Retry state machine, backoff in wrapping 64-bit arithmetic, and a limited poll ordered by time whose ties the
  query leaves open. A poll is its listing and one step for each attempt; events, updates of webhooks and time may
  come between them.
- **Rate limiter** (`RateLimiter`). Compared with an exact token bucket, and with a limiter that never forgets.
- **Organizations** (`Organizations`, `OrganizationOutcomes`, `OrganizationService`). Membership with timed
  suspension and an audit trail that replays to the member table.
- **Audit query** (`AuditQuery`). The filter compiled to numbered placeholders, under SQL's three truth values, and
  the pages of its answer.
- **Billing** (`Billing`). Grouped summary and the two invoice loops, with truncation to cents.
- **Metrics** (`Metrics`). Label escaping and series keys.

Code that changes state in place is modelled by classes whose methods change fields one statement at a time. Each
such method is proved to do what a function on values says (`ComputeSpec`, `WebhookQueue`, `Organizations.Do`,
...), and the theorems about runs are proved of those functions. What those functions answer and change is stated
once more in the `Outcomes` modules, in terms of the arguments and the stored columns alone. A successful or failed
write, the clock, a drawn provider id and the outcome of a POST are parameters, so every theorem quantifies over
them.

## Where the code and its documentation differ

- The dispatcher's comments (`internal/webhooks/dispatcher.go:35-37`) and those of the store
  (`internal/database/webhooks.go:179-180`) say that retries stop when `max_attempts` is exhausted and that a
  delivery is then failed for good. The query of due rows selects failed rows too, and a failed row is rescheduled
  for "now". `WebhookDispatcher.AttemptsExceedAnyBudget` gives, for any budget and any number n, a run in which one
  row is attempted n times; `WebhookTheorems.WithinBudgetExactlyWhenPending` says which attempts stay within the
  budget.
- The backoff is meant to double up to five minutes. From argument 34 on the product overflows;
  `Backoff.DelayIsIntendedExactlyWhen` lists the arguments for which the delay is still right.
- The reconciler is meant to move transient states along the graph. A request cut after its provider write makes it
  skip an edge: `ComputeWitnesses.CutStopSkipsAnEdge`; `Lifecycle.SkipsAnEdgeExactlyWhen` says when. A request that
  goes through between its reading and its writing of the same instance makes it write what is no longer so:
  `ComputeWitnesses.RaceLeavesGraph`. Each of the two suffices alone, and `ComputeTheorems.EveryChangeIsAnEdge`
  says that there is no third way. `ComputeRaces.WriteFollowsGraphExactlyWhen` gives the exact condition: without
  cuts a write follows the graph if and only if no request has gone through on its instance since the reading; one
  that marks the instance failed, if and only if it has no provider record.
- Provider records can leak. Besides Creates that are dropped after provisioning, a Start or Stop that goes through
  on an instance the reconciler is about to write terminated or failed leaves a live record behind
  (`ComputeWitnesses.RacesLeakRecord`). `ComputeLeaks.RevivalLeaksExactlyWhen` and
  `ComputeLeaks.DroppedCreateLeaksExactlyWhen` say exactly which steps leak, `ComputeLeaks.NoProviderLeak` that no
  others do.
- Quotas can be exceeded by overlapping `Create` calls. `ComputeQuota.OvershootBound` says by how much at most,
  `ComputeOvershoot.BoundIsReached` that this much is reached for every number of overlapping calls, and
  `ComputeOvershoot.LimitHoldsExactlyWhen` that the limit itself holds exactly when calls do not overlap.
- Series keys are not escaped, so label values can run together in a key. `Metrics.KeysDistinctExactlyWhen` gives
  the sets of methods for which they do not, and `Metrics.SharesKeyExactlyWhen` the triples that share a key. This
  is about `WithLabelValues` as an interface: in the program a method is a token (sections 5.6.2 and 9.1 of RFC
  9110), which has no comma, so by `Metrics.SeparatorHoldsComma` no two triples of the middleware collide.

## Model

| member | source | states |
|---|---|---|
| Lifecycle.ViewFollowsGraph | internal/compute/sim_provider.go:81-107 | the reconciler's unchecked write is safe on a coupled instance: the provider's view is its status or one graph edge further, and writing it keeps the coupling |
| Lifecycle.ViewWithinTwoEdges | internal/compute/sim_provider.go:81-107 | after a cut request the view is at most the one missing edge further, and writing it restores the strict coupling |
| Lifecycle.SkipsAnEdgeExactlyWhen | internal/compute/reconciler.go:86-95 | a reconciler write leaves the graph if and only if the provider record is one request ahead of the status and the provider has settled |
| Lifecycle.ViewIsStable | internal/compute/sim_provider.go:90-106 | once both delays have passed since a request, the provider's view never changes again and is a settled state |
| ComputeOutcomes.CreateAnswer | internal/compute/service.go:122-217 | each answer of Create has exactly its own reason, in the order of the checks; quota and capacity are compared in the region asked for, all values written out |
| ComputeOutcomes.CreateOutcome | internal/compute/service.go:130-214 | an instance is stored for the caller's organization, pending, in the region asked for or us-east-1, with the amounts asked for or 1, 1024 and 10; refusals leave nothing but the record of a failed insert |
| ComputeOutcomes.BegunOutcome | internal/compute/service.go:130-166 | the same of the first stage of overlapping calls |
| ComputeOutcomes.EveryRowWasAskedFor | internal/compute/service.go:122-217 | in every run every instance was asked for by a member of its organization, with its region and size |
| ComputeOutcomes.UsageCountsActiveRows | internal/database/compute.go:100-126 | a usage sum takes exactly the amounts of the rows of its organization or region that are not terminated |
| ComputeOutcomes.FitsExactlyWhen | internal/compute/service.go:321-360 | a request fits if and only if usage plus request is within the stored or default quota, and within the region's capacity |
| ComputeOutcomes.GraphIsRequestsAndProvider | internal/compute/service.go:91-120 | the graph has the edges of the three requests and the provider's own, and no others |
| ComputeOutcomes.RequestOutcome | internal/compute/service.go:240-319 | a request goes through if and only if the caller is a member, the instance exists in the same organization, and its status admits the action; then exactly its row, record and event change, and otherwise nothing, with the first obstacle as the answer |
| ComputeOutcomes.FailedRequestOutcome | internal/compute/service.go:269-275 | a failing provider write leaves everything, a failing row write everything but the record |
| ComputeOutcomes.RequestTakesEffectExactlyWhen | internal/compute/sim_provider.go:60-107 | a started instance is seen running, and a stopped one stopped, exactly from its delay on; a terminated one at once |
| ComputeOutcomes.OnlyMembersTouch | internal/compute/service.go:240-259 | in every reachable state a request changes a row or its record only for a member of the row's organization |
| ComputeOutcomes.StrangersTouchNothing | internal/compute/service.go:240-259 | over any continuation in which no member of its organization asks for anything, an instance's record stays or is lost, and of its row only the status changes |
| ComputeOutcomes.TurnOutcome | internal/compute/reconciler.go:64-96 | what one turn writes and records for each view and each listed status |
| ComputeTables.ActiveAreListed | internal/database/compute.go:71-75 | the reconciler's listing holds exactly the rows that are not terminated, as they are, each once, in id order |
| ComputeTables.UsageUpdate | internal/database/compute.go:100-126 | the usage sums react to a row update by exactly the difference of that row's charge |
| ComputeRuns.StepKeepsSane | internal/compute/service.go:122-319 | every step of any kind, cut, racing or failing, keeps provider ids distinct, stored desired states known and listed instances not terminated |
| ComputeRuns.StepKeepsInv | internal/compute/service.go:122-319 | every step keeps the coupling of statuses and records, and of what the reconciler is about to write, unless a request goes through between its reading and writing of the same instance; cut requests only weaken it to the loose one |
| ComputeRuns.RunKeepsInv | internal/compute/reconciler.go:57-98 | the same over whole runs, with stale listings, lost records, failing writes, overlapping Create calls and anything else between reading and writing |
| ComputeTheorems.OthersFollowGraph | internal/compute/service.go:261-319 | in any state any step but the reconciler's write changes statuses only along edges |
| ComputeTheorems.EveryChangeIsAnEdge | internal/compute/reconciler.go:57-98 | in every run without cut requests, and without a request that goes through between the reconciler's reading and writing of its instance, each status change is a graph edge, or marks failed an instance whose record is gone |
| ComputeTheorems.CutRunsStayWithinTwoEdges | internal/compute/service.go:261-319 | with requests cut anywhere between their writes, but none racing, the reconciler still moves a row at most two edges, everybody else one |
| ComputeRaces.WriteFollowsGraphExactlyWhen | internal/compute/reconciler.go:66-95 | after any uncut and calm run, and any uncut steps between reading and writing: the write follows the graph if and only if no request went through on its instance in between, or, if it marks the instance failed, if and only if there is no provider record |
| ComputeRaces.RaceLeavesGraphExactlyWhen | internal/compute/reconciler.go:66-95 | of a single request in between: the write follows the graph if and only if the request does not go through on that instance |
| ComputeTheorems.UnexpectedStateUnreachable | internal/compute/sim_provider.go:104-106 | the default branch of the provider's view is unreachable in every run, cuts and races included |
| ComputeTheorems.TerminatedIsFinal | internal/compute/service.go:299-319 | a terminated row is the same row after any continuation of any run, cuts and races included |
| ComputeTheorems.StepRecordsItsChange | internal/compute/reconciler.go:43-53 | a step leaves rows and trail alone, or records exactly one event that accounts for the whole change |
| ComputeTheorems.TrailRebuildsStatuses | internal/compute/service.go:214-318 | replaying the audit trail alone gives the status of every instance after every run |
| ComputeLeaks.NoProviderLeak | internal/compute/service.go:189-212 | in every run, cuts, losses and races included, in which no Create is dropped after provisioning and no Start or Stop goes through on an instance about to be written dead, every record not desired terminated belongs to a row neither terminated nor failed, or to a Create that has still to insert it |
| ComputeLeaks.RevivalLeaksExactlyWhen | internal/compute/reconciler.go:66-95 | after a run without leaks, writing an instance terminated or failed leaks its record if and only if what came between reading and writing was a Start or Stop that went through on it |
| ComputeLeaks.WrittenDead | internal/compute/reconciler.go:66-95 | in any sane state, writing an instance terminated or failed leaks its record if and only if the record is live at that moment |
| ComputeLeaks.DroppedCreateLeaksExactlyWhen | internal/compute/service.go:207-212 | giving up a provisioned Create, or failing its insert and its clean-up, leaks its record if and only if the record is still there |
| ComputeQuota.StepLedger | internal/database/compute.go:100-126 | each usage sum changes only by the request a Create inserts and by the row the reconciler terminates, step by step, cuts and races included |
| ComputeQuota.UsageIsInsertedLessReleased | internal/database/compute.go:100-126 | over a whole run active usage is everything inserted less everything terminated, per organization, region and dimension |
| ComputeQuota.CheckedCallReserves | internal/compute/service.go:321-360 | a Create that passes its check while k - 1 others are open stays, with all of them counted, within limit plus (k - 1) times the largest request |
| ComputeQuota.OvershootBound | internal/compute/service.go:161-207 | if at most k Create calls ever overlap between check and insert, each asking for at most M, usage never exceeds limit + (k - 1) * M; for k = 1 never the limit |
| ComputeOvershoot.BoundIsReached | internal/compute/service.go:161-207 | in every dimension, where the others leave room: for every k, limit and request size M up to the limit (1 for the instance count) there is a run within k and M, nothing cut, lost or terminated, in which limit + (k - 1) * M is in use by the organization and in the region |
| ComputeOvershoot.LimitHoldsExactlyWhen | internal/compute/service.go:321-360 | in every dimension, where the others leave room: the limit holds on all runs with at most k overlapping calls if and only if k is 1 |
| ComputeOvershoot.DefaultQuotaHoldsExactlyWhen | internal/models/policy.go:38-43 | the default quotas of cores, memory and disk hold on all such runs, for requests large enough that 16 use them up, if and only if k is 1 |
| ComputeOvershoot.TwoOverlappingCreatesExceedQuota | internal/compute/service.go:161-207 | a run within two overlapping calls of 16 cores each in which 32 are in use under the default quota of 16 |
| ComputeWitnesses.CutStopSkipsAnEdge | internal/compute/service.go:280-297 | a run without races in which a Stop that crashes after its provider write makes the reconciler write stopped over running, which is no edge |
| ComputeWitnesses.RacesLeakRecord | internal/compute/service.go:280-297 | a run in which nothing is cut, dropped or lost, and which ends with a terminated row whose provider record asks for a stopped machine |
| ComputeWitnesses.RaceLeavesGraph | internal/compute/reconciler.go:66-95 | a run without cuts in which a Terminate between the reconciler's reading and writing makes it write running over terminating, which is not even two edges |
| ComputeTick.TickWritesView | internal/compute/reconciler.go:57-98 | after a Tick whose clock moves and whose turns fail as they will, each row has the provider's view at its own turn if that turn succeeded and is as it was if not, and Tick returns the number of rows it changed |
| ComputeTick.SecondTickIsIdle | internal/compute/reconciler.go:57-98 | at a fixed clock a second Tick after an error-free one changes nothing and returns 0 |
| ComputeTick.TickSettles | internal/compute/reconciler.go:57-98 | when both delays have passed since the last request of any run, one error-free Tick, however its clock moves, leaves every instance running, stopped, terminated or failed, and any later Tick returns 0 |
| ComputeTick.TickHealsCuts | internal/compute/reconciler.go:86-95 | in every reachable state, cuts and races included, an error-free Tick makes each active status the provider's view at the time of that instance's own turn, or failed without a record |
| ComputeTick.TickIsRun | internal/compute/reconciler.go:57-98 | a whole Tick with any forward clock and any failures is a run of the step system without cuts and races, so the run theorems hold of it |
| ComputeTick.CreateIsRun | internal/compute/service.go:122-217 | a whole Create with a fresh provider id is a run of its stages, whichever of its writes fail |
| ComputeService.Service.EnforceQuota | internal/compute/service.go:321-343 | passes if and only if usage plus request fits the organization's quota in all four dimensions |
| ComputeService.Service.EnforceCapacity | internal/compute/service.go:345-360 | passes if and only if usage plus request fits the region's capacity in all three dimensions |
| ComputeService.Service.Create | internal/compute/service.go:122-217 | which refusal comes first, and what is left in all three stores after a failure of the provision, the insert or the compensation |
| ComputeService.Service.Get | internal/compute/service.go:240-259 | an instance of another organization is reported as not found |
| ComputeService.Service.Start | internal/compute/service.go:261-278 | the provider record is written before the row, so a failure between the two leaves the record one request ahead; refusals change nothing |
| ComputeService.Service.Stop | internal/compute/service.go:280-297 | the same for Stop |
| ComputeService.Service.Terminate | internal/compute/service.go:299-319 | the same for Terminate, and a second Terminate of a terminated instance succeeds without effect |
| ComputeService.Reconciler.ReconcileOne | internal/compute/reconciler.go:64-96 | one turn compares the current view with the listed status, writes at most one row, and counts and records exactly if it wrote |
| ComputeService.Reconciler.Tick | internal/compute/reconciler.go:57-98 | the loop over a snapshot ends in the state and with the count that its turns have one after the other, whichever fail |
| Backoff.NoOverflow | internal/webhooks/dispatcher.go:195-201 | up to argument 33 nothing overflows and the delay is the doubling from two seconds capped at five minutes |
| Backoff.ScheduleInSeconds | internal/webhooks/dispatcher.go:195-201 | the delays are 2, 4, 8, 16, 32, 64, 128 and 256 seconds and then 300 |
| Backoff.DelayIsIntendedExactlyWhen | internal/webhooks/dispatcher.go:195-201 | the wrapped delay is the intended one if and only if the argument is at most 33 or one of eight larger ones whose overflow lands above the cap |
| Backoff.BudgetIsSafeExactlyWhen | internal/webhooks/dispatcher.go:157-164 | all delays a budget can use are the intended ones if and only if the budget is at most 34 |
| WebhookQueue.FanoutReachesSubscribers | internal/database/webhooks.go:116-125 | an event enqueues exactly one delivery for each active subscriber of its organization and none for anybody else |
| WebhookOutcomes.EmitOutcome | internal/database/webhooks.go:116-125 | what is enqueued is pending, never attempted and due at once, behind the rows there are |
| WebhookOutcomes.ListedExactlyWhen | internal/database/webhooks.go:141-147 | with room left a poll lists a row if and only if it is pending or failed, due, and its webhook active; without room it leaves out none that is earlier than one it lists |
| WebhookOutcomes.AttemptOutcome | internal/webhooks/dispatcher.go:115-177 | in every run: a recorded success delivers its row and is counted once as delivered; a recorded failure is counted once, as failed if it used up the budget and else as retried, with the row's new status, attempts and time; an unrecorded attempt changes nothing; no other row is touched |
| WebhookOutcomes.HealthyEndpointsDeliver | internal/webhooks/dispatcher.go:102-153 | a due row with r others that may be preferred is delivered within floor(r / limit) + 1 polls whose attempts succeed |
| WebhookTheorems.RunKeepsCurrent | internal/webhooks/dispatcher.go:102-113 | what is listed and not yet attempted is still to be delivered, with the attempt counts as listed, whatever comes between the attempts |
| WebhookTheorems.PollIsRun | internal/webhooks/dispatcher.go:102-113 | a poll that nothing comes between ends as the run of its listing and its attempts |
| WebhookTheorems.CountersAccountForRows | internal/webhooks/dispatcher.go:115-177 | after every run, also in the middle of a poll, the delivered counter is the number of delivered rows and retried plus failed is the sum of all attempts, whichever store writes failed |
| WebhookTheorems.DeliveredIsFinal | internal/database/webhooks.go:141-177 | after any continuation a delivered row is unchanged, is not waiting to be attempted, and is in no answer to the due query |
| WebhookTheorems.RunKeepsSchedule | internal/webhooks/dispatcher.go:157-177 | with budgets of at least one: pending means attempts left, failed means none left, and a pending row is never due before creation plus all its waits |
| WebhookTheorems.FailedAttemptsFollowSchedule | internal/webhooks/dispatcher.go:157-177 | the n-th failed attempt of a row comes no earlier than creation plus the first n - 1 waits; the row turns failed at exactly n = budget; until then it waits the intended doubling if the budget is at most 34 |
| WebhookTheorems.WithinBudgetExactlyWhenPending | internal/database/webhooks.go:141-147 | in every run a recorded failure keeps a row within max_attempts if and only if the row was pending |
| WebhookTheorems.NoStarvation | internal/webhooks/dispatcher.go:102-164 | a due row with r others that may be preferred is attempted within floor(r / limit) + 1 polls, however ties are broken and whatever comes between attempts, once the clock passes its time |
| WebhookTheorems.StandingClockStarves | internal/webhooks/dispatcher.go:161-164 | without that a failed row rescheduled for "now" can be preferred to a due row in any number of polls |
| WebhookDispatcher.PlanListDue | internal/database/webhooks.go:141-164 | sorting by time and cutting at the limit answers the due query, so every queue has an answer |
| WebhookDispatcher.DeliveryTable.ListDue | internal/database/webhooks.go:141-164 | the listed rows answer the due query: due, each once, by time, none left out in favour of a later one; ties are left open |
| WebhookDispatcher.AttemptsExceedAnyBudget | internal/webhooks/dispatcher.go:157-164 | for every budget and every n there is a run in which one row is attempted n times |
| WebhookDispatcher.DeliveryTable.MarkDelivered | internal/database/webhooks.go:167-177 | only the named row changes; a missing row is reported |
| WebhookDispatcher.DeliveryTable.MarkFailed | internal/database/webhooks.go:181-193 | only the named row changes, one attempt more; a missing row is reported |
| WebhookDispatcher.Dispatcher.Fail | internal/webhooks/dispatcher.go:157-177 | status, time and counter of a failed attempt agree, and nothing is counted if the write fails |
| WebhookDispatcher.Dispatcher.DeliverOne | internal/webhooks/dispatcher.go:115-153 | one attempt as the run theorems have it, with rows and counters changed together |
| WebhookDispatcher.Dispatcher.DispatchOnce | internal/webhooks/dispatcher.go:102-113 | a poll attempts the rows of an answer to the due query in order and returns their number; if the query fails it changes nothing |
| RateLimiter.ExactBucketSimulates | internal/middleware/ratelimit.go:52-77 | on any calls the limiter's tokens stay at or below those of a bucket that carries fractions of an interval, so it never admits what that bucket refuses |
| RateLimiter.LimiterIsExactOnRoundedGaps | internal/middleware/ratelimit.go:52-77 | on every sequence of calls the answers are exactly those of the exact bucket when each gap is rounded down to whole intervals |
| RateLimiter.AlignedCallsAreExact | internal/middleware/ratelimit.go:63-69 | on calls whose gaps are whole intervals the answers are the exact bucket's |
| RateLimiter.SpacedCallsAreAdmitted | internal/middleware/ratelimit.go:63-76 | calls at least one interval apart are all admitted |
| RateLimiter.SweepOutcome | internal/middleware/ratelimit.go:39-50 | a sweep keeps exactly the visitors seen in the last 30 minutes, as they were |
| RateLimiter.WindowBound | internal/middleware/ratelimit.go:52-77 | any window [s, t] of calls admits at most burst + rate * floor((t - s) / interval), from whatever came before |
| RateLimiter.SimulatedExactlyWhen | internal/middleware/ratelimit.go:39-77 | with sweeps at any times the limiter never admits what the exact bucket refuses, on any history, if and only if an idle bucket refills |
| RateLimiter.SweptWindowBoundExactlyWhen | internal/middleware/ratelimit.go:39-77 | the window bound holds of every window inside every history of calls and sweeps if and only if an idle bucket refills |
| RateLimiter.ConfiguredWindowBound | internal/router/router.go:34 | the configured limiter admits at most ten and one more for each whole second of the window, in any history |
| RateLimiter.SweepsAreInvisibleExactlyWhen | internal/middleware/ratelimit.go:39-77 | sweeps at arbitrary times change no answer on any history if and only if an idle bucket refills: rate * floor((30 min + 1 ns) / interval) >= burst |
| RateLimiter.ConfiguredLimiterForgetsInvisibly | internal/router/router.go:34 | the configured limiter, one per second and burst ten, answers every history as if it never forgot |
| RateLimiter.KeysAreIndependent | internal/middleware/ratelimit.go:52-77 | in mixed traffic each key gets the answers it would get alone |
| RateLimiter.Limiter.AllowKey | internal/middleware/ratelimit.go:52-77 | a call changes its own visitor only, as the one-visitor law says |
| RateLimiter.Limiter.Cleanup | internal/middleware/ratelimit.go:39-50 | a sweep in any order removes exactly the visitors idle for more than 30 minutes |
| Organizations.EveryOrgHasActiveAdmin | internal/organizations/service.go:81-399 | in every run each organization has, from its creation on, an admin who is not suspended |
| Organizations.OnlyActiveAdminsChangeMembers | internal/organizations/service.go:230-242 | a member row changes only when its organization is created or by an active admin of it, who can neither remove nor suspend themselves |
| OrganizationOutcomes.AdminsAreMade | internal/organizations/service.go:81-196 | in every run whoever is stored as an admin founded the organization or was invited as an admin by an active one |
| OrganizationOutcomes.SlugsAreDistinct | internal/organizations/service.go:87-93 | in every run no two organizations have the same slug |
| OrganizationOutcomes.CreateOutcome | internal/organizations/service.go:81-111 | a taken slug changes nothing; otherwise one more organization, with its creator as active admin |
| OrganizationOutcomes.InviteOutcome | internal/organizations/service.go:148-196 | each refusal with its reason; otherwise a new member with the role asked for, or "member" if none was, not suspended |
| OrganizationOutcomes.AcceptOutcome | internal/organizations/service.go:264-298 | each refusal with its reason; otherwise a plain member, and the request is used up |
| OrganizationOutcomes.RevokeOutcome | internal/organizations/service.go:301-317 | each refusal with its reason; otherwise the request is used up and nobody becomes a member |
| OrganizationOutcomes.RemoveOutcome | internal/organizations/service.go:322-344 | each refusal with its reason; row and join request are gone afterwards |
| OrganizationOutcomes.SuspendOutcome | internal/organizations/service.go:351-375 | each refusal with its reason; otherwise only the end of the suspension changes, to so many days from now |
| OrganizationOutcomes.UnsuspendOutcome | internal/organizations/service.go:379-399 | each refusal with its reason; otherwise only the suspension is lifted |
| Organizations.RefusedCallsKeepMembers | internal/organizations/service.go:264-344 | a refused call changes no member and records nothing; it drops a join request exactly for an accepted existing member or a removed stranger who had one |
| Organizations.SuspensionEndsByItself | internal/database/organizations.go:209-224 | a suspended member is not found exactly until the given days are over, through any calls that do not target the member, and then has the old role |
| Organizations.TrailRebuildsMembers | internal/organizations/service.go:81-399 | replaying the audit trail gives exactly the member rows, role and suspension included, after every run |
| OrganizationService.OrgRepository.FindMember | internal/database/organizations.go:209-224 | the access gate finds a member if and only if the row exists and its suspension, if any, is over |
| OrganizationService.Service.RequireAdmin | internal/organizations/service.go:230-242 | holds exactly of admins who are not suspended |
| OrganizationService.Service.CreateOrg | internal/organizations/service.go:81-111 | the slug comes from the request, or from the name if that comes out empty; a taken slug changes nothing; otherwise the creator is the sole member, an admin |
| OrganizationService.SlugComesFrom | internal/organizations/service.go:82-85 | a slug has no spaces before lower-casing, differs from its text in nothing else, and comes from the name exactly when the requested one comes out empty |
| OrganizationService.Service.InviteMember | internal/organizations/service.go:148-196 | order of refusals; a suspended member counts as an existing one |
| OrganizationService.Service.AcceptJoinRequest | internal/organizations/service.go:264-298 | order of refusals; an existing member loses the stale request, a new one is added as plain member |
| OrganizationService.Service.RevokeJoinRequest | internal/organizations/service.go:301-317 | removes exactly the request and records it, or reports that there is none |
| OrganizationService.Service.RemoveMember | internal/organizations/service.go:322-344 | drops the join request even if there is no member to remove |
| OrganizationService.Service.SuspendMember | internal/organizations/service.go:351-375 | sets the end of the suspension and keeps the role |
| OrganizationService.Service.UnsuspendMember | internal/organizations/service.go:379-399 | clears the suspension and keeps the role |
| AuditQuery.BuildWhere | internal/database/audit.go:75-96 | for every filter the compiled conjunction under its arguments selects exactly the matching rows, NULLs included, and its placeholders are 1..len(args), each once and in order |
| AuditQuery.WhereIsMatching | internal/database/audit.go:39-71 | such a conjunction selects from every table the rows the filter means |
| AuditQuery.FilterNarrows | internal/database/audit.go:75-96 | each field of a filter narrows the trail to exactly the rows that have it, an absent one does not, and only the organization's rows are in it |
| AuditQuery.TrailIsNewestFirst | internal/database/audit.go:41-44 | the later of two rows is older, or as old with a smaller id |
| AuditQuery.OrderIsForced | internal/database/audit.go:41-44 | newest first with ids breaking ties leaves one answer only, so pages of separate queries fit together |
| AuditQuery.List | internal/database/audit.go:39-61 | returns the requested page of the filter's whole newest-first trail |
| AuditQuery.PageAt | internal/database/audit.go:41-44 | at any offset a page has the rows that are there, up to the limit |
| AuditQuery.Count | internal/database/audit.go:63-71 | returns the length of that trail |
| AuditQuery.PagesCoverTrail | internal/database/audit.go:39-71 | pages of any positive limit, read until Count rows are covered, are the whole trail one after the other |
| AuditQuery.MembersSeeOnlyThemselves | internal/audit/service.go:62-83 | a member's trail is the admin's trail cut down to the member's own actions, in the same order, also when the filter names somebody else |
| Billing.GetSummary | internal/database/billing.go:26-51 | whatever order the groups come in and whichever types are missing, each field is the total of its type over the period |
| Billing.BillSources | internal/billing/service.go:143-189 | the two loops agree: the amount is the sum of the line items |
| Billing.GenerateInvoice | internal/billing/service.go:133-196 | the invoice of any records is the sum of its items and the billed amount of the period's totals |
| Billing.ItemsAreTheUsage | internal/billing/service.go:174-189 | there is an item exactly for each type with positive usage, with its quantity, unit price and cents |
| Billing.LineIsTruncatedPrice | internal/billing/service.go:38-42 | a line charges 50, 20 or 1 cents times its quantity, cut off at whole cents |
| Billing.TotalCountsPeriod | internal/database/billing.go:26-27 | a total takes exactly the quantities of the organization's records of the type, not before the period |
| Billing.ExactPriceInCents | internal/billing/service.go:38-42 | the exact price is 50, 20 and 1 cents times the totals |
| Billing.UnderchargesByLessThanThreeCents | internal/billing/service.go:153-159 | an invoice never exceeds the exact price of the period's records and falls short of it by less than three cents |
| Billing.InvoiceIgnoresOrder | internal/database/billing.go:26-51 | records in any other order give the same invoice amount |
| Billing.InvoiceNeverDrops | internal/billing/service.go:133-196 | more records never make the amount smaller |
| Billing.UsageTable.RecordUsage | internal/billing/service.go:73-95 | only priced types with positive quantity enter the table, which is what the bounds above assume |
| Metrics.ThreePassesAreOne | internal/metrics/metrics.go:227-232 | the three replacements equal one pass that escapes each character by itself |
| Metrics.EscapeLabelRoundTrip | internal/metrics/metrics.go:227-232 | an escaped value reads back, under the exposition format's rules, as the value; no raw newline or unescaped quote is left |
| Metrics.KeysDistinctExactlyWhen | internal/metrics/metrics.go:102-124 | with methods out of a given set, distinct HTTP triples have distinct series keys if and only if no method of the set is another one followed by ",route=" and anything |
| Metrics.SharesKeyExactlyWhen | internal/metrics/metrics.go:102-124 | a triple shares its key with another well-formed one if and only if its method holds ",route=" |
| Metrics.HTTPKeyInjective | internal/metrics/metrics.go:102-124 | triples whose methods do not hold ",route=" have distinct series keys, whatever the route |
| Metrics.CommasCollide | internal/metrics/metrics.go:102-112 | a concrete pair of triples, one with the separator in its method, that share a key |
| Metrics.SamplesCountTheirTriple | internal/metrics/middleware.go:18-32 | after any requests each triple's sample counts exactly that triple's requests, under its own escaped labels |
| Metrics.Metric.WithLabelValues | internal/metrics/metrics.go:102-124 | the loop's keys and labels are those of the key theorem; an existing sample is left as it is |
| Metrics.Metric.Add | internal/metrics/metrics.go:127-131 | only the selected sample changes |
| Metrics.CountRequests | internal/metrics/middleware.go:31 | the middleware's counter after any requests is the one that the counting theorem is about |

## Left out

Assumptions of the compute model:

- One reconciler, a clock that never goes back, fixed delays and quotas, fresh provider ids (64 random bits are
  taken not to collide), ids as positions (gaps of a BIGSERIAL are invisible; the service deletes no instance).
- Usage sums are mathematical integers; wrap-around of usage plus request in int64 is not modelled.
- Start, Stop and Terminate are atomic apart from being cut between their two writes, though not against the
  reconciler, whose reading and writing of an instance are two steps. Two overlapping requests on one instance are
  not modelled; interleaved at write level they can break finality.
- Whether the caller is a member is a parameter of each compute call; columns that influence no decision (name,
  image, port, address) are dropped, and so are the webhook events that compute calls emit.
- Reads that fail with an error other than "not found" refuse the call and change nothing; only those of the
  reconciler's turns are modelled, since there the loop goes on.
- Audit records are taken to be written; in the source they are best effort.

Webhooks:

- One clock: the database's NOW() in the due query and the dispatcher's time.Now() are taken to agree. The query
  and the dispatcher's first attempt may be any time apart.
- WebhookTheorems.NoStarvation: assumes budgets of at most 34, since an overflowed delay may lie in the past; that
  other rows are enqueued, and attempted, after the row's time; and that store writes succeed. The middle
  assumption is needed (WebhookTheorems.StandingClockStarves).
- One dispatcher; a webhook is never deleted; `max_attempts` is a parameter of each delivery (the column's default
  is 5).
- The POST, its JSON envelope and its signature are one bit, success or failure; each attempt reads the clock once,
  where the source reads it twice a moment apart.

Rate limiter:

- RateLimiter.WindowBound: says max(burst, 1), since the code admits a new visitor once whatever the burst.
- Token counts are mathematical integers; the interval is positive (the source divides by it) and the rate not
  negative. The mutex makes each call atomic.

Organizations:

- OrganizationService.Service.CreateOrg: what lower-casing does to a text is a parameter.
- Looking a user up by email is an input. Store failures, and a crash between two writes of one call, are not
  modelled; neither is the deletion of users. Refused calls report a reason, not the message text.

Audit, billing, metrics:

- The WHERE clause is a list of clauses, not its SQL text; negative limits, which the database refuses, are
  excluded.
- Quantities are reals instead of floats; the range of int64 cents is not modelled; writes of an invoice and its
  line items succeed.
- Metrics.Metric.WithLabelValues: does not model the bucket counters of histogram samples; the panic on a wrong
  number of label values is its precondition.
- The status label is taken to be free of commas, as a decimal number is.
- Sample values are integers; histograms and the rendering of all metrics are left out.

Not modelled at all: HTTP handlers and routing, authentication, configuration, mail, health probes, migrations,
request validation, password resets, the dashboard.
