# Verification of TelsonBase's governance core

TelsonBase puts a governance layer around agents. This project models the parts of it that keep state or compute
with rules, and proves what every run of them guarantees:

- **The hash-chained audit log** (`core/audit.py`). `AuditChain.dfy` says what `verify_chain` reports and what a
  pinned tip hash proves. `AuditProtocol.dfy` is a step system: any number of processes, one Redis, every WATCH, GET,
  MULTI/EXEC, failure, lost reply, fallback and restart its own step, and a run is any schedule of steps.
  `AuditCaches.dfy` says what verifying a process's own cache reports after any run, `AuditNumbers.dfy` when its numbers
  increase, `AuditFaults.dfy` what a lost reply and a fallback do, and `AuditCalls.dfy` how many copies of its event one
  call commits.
  `AuditLogger.dfy` is the logger object with its retry loop; other processes act inside `RedisServer.OthersRun`,
  about which the logger knows only what every step of the protocol guarantees and whether they committed.
- **The approval gate** (`core/approval.py`, `agents/base.py`, `main.py`). `Approval.dfy` is the state of one gate and
  the meaning of waiting; `ApprovalGate.dfy` the gate object, its polling loop and the agent entry point;
  `ApprovalRuns.dfy` all runs of one gate; `ApprovalProtocol.dfy` all interleavings of workers, endpoints, delayed or
  lost store writes, restarts and waiters.
- **The capability language** (`core/capabilities.py`, `agents/base.py`, `core/trust_levels.py`). `Glob.dfy` proves a
  greedy split-based matcher equal to the recursive meaning of a pattern; `Capabilities.dfy` has the parser, the printer
  and the decision; `Enforcement.dfy` the enforcer and its store; `TrustFilter.dfy` the filter by trust level.
- **The behaviour monitor** (`core/anomaly.py`). `Behaviour.dfy` relates the pruned windows and the running statistics
  to the full history, `Averages.dfy` has the closed forms of the running means, `Enumeration.dfy` relates the sort-based
  test to its meaning, and `BehaviorMonitor.dfy` is the object.
- **Smaller loops**: the capped rate limiter (`RateLimiter.dfy`), the doubly indexed memory store (`MemoryStore.dfy`)
  with its conversation contexts (`Contexts.dfy`), the incremental stream (`EventStream.dfy`) and the retention pass
  (`Retention.dfy`). `Common.dfy` holds options, Python's negative slices and a stable sort.

Objects that the source updates in place are classes here; a method's contract ties the new state to a function of the
old one, and lemmas prove the properties of that function over whole runs. The hash is an arbitrary function on entry
contents: no theorem assumes it injective, each names the collision that would be needed to break it, and some also exclude
a content whose hash is the genesis constant. Clocks, drawn ids, what the store answers and which round trips fail are
parameters, so a contract says what happens for each outcome. Real numbers stand for floats.

Where the code does not do what one would hope, the model follows the code and the exact condition is proved:

- `verify_chain` never checks the first link, so cutting off the oldest entries passes; nothing else does.
- An EXEC whose reply is lost is retried and commits the event again. One call commits its event exactly once if and only
  if it was acknowledged without losing a reply, or fell back after losing exactly one. The shared log stays sound, but a
  local cache of committed entries then fails verification exactly if it was not empty, because it misses a copy.
- The in-memory fallback can use sequence numbers that Redis appends use too. The numbers in a cache strictly increase
  exactly if no commit comes right after entries of the fallback that reached its number. In any cache, verification
  reports exactly the committed entries whose log predecessor is not the entry cached before them.
- A printed capability reads back exactly when its scope is not empty, has no newline and does not end in `.none`.
  A text that ends in `.none` and a newline is accepted when registered, but its saved form cannot be read, and a worker
  that reloads it denies the agent everything.
- At the probation level the trust filter can drop a deny rule and keep the grant it restricts, so the filtered list
  permits more. At every other default level it only narrows; at probation it narrows a list exactly if no kept grant
  shares a target with a declared rule that denies reading the file system.
- Asking for more information is a dead end for the gate.
- A request can be decided more than once. From any reachable state on, restarts included, it is decided at most once
  exactly if at most one gate can still decide it and the store does not show it as pending. In any run from the start
  the successful calls for one id are at most one more than the restarts that loaded it as pending. The endpoints go on
  accepting decisions exactly as long as the store shows the request as pending, and a rejection on the gate gives way to
  an approved record that its waiter reads.
- Two agents can share a conversation context exactly if one id is the other, a colon and more. The source itself uses
  agent ids with colons; most of them do not clash.

## Model

| member | source | states |
|---|---|---|
| AuditChain.VerifyChain | core/audit.py:624-691 | valid exactly when every hash and every link is right; the breaks are, in order, those of the bad positions; the first and last number are reported, and none for an empty list |
| AuditChain.BreaksAtBadPositions | core/audit.py:646-682 | the breaks are exactly the positions with a wrong hash or link, in order, a wrong hash with its sequence number, the stored and the computed hash, a wrong link with both hashes |
| AuditChain.BreaksEmptyIffChainOk | core/audit.py:646-682 | no break is reported if and only if all hashes and links are right |
| AuditChain.PinnedTipFixesHistory | core/audit.py:71-84 | two verified lists with the same tip hash agree back to the start of the shorter one, or exhibit a hash collision |
| AuditChain.TamperDetectionIsExact | core/audit.py:646-691 | against a genuine chain with a pinned tip, a list verifies if and only if it is that chain with oldest entries cut off; with equal length it is that chain |
| AuditChain.SuffixVerifies | core/audit.py:665-681 | dropping oldest entries goes unnoticed, since the first link is not checked |
| AuditChain.ExportOfChainVerifies | core/audit.py:708-731 | exporting any sequence range of a verified increasing chain gives exactly the entries of that range, and they verify |
| AuditChain.ExportedIsRange | core/audit.py:708-731 | an export of any list holds, in order, exactly the entries of the range |
| AuditProtocol.TrimKeepsNewest | core/audit.py:371-383 | ZADD and then ZREMRANGEBYRANK 0 to -(max+1) leaves exactly the newest max entries |
| AuditProtocol.CommitExtendsChain | core/audit.py:319-391 | committing an entry built from the current state keeps the shared invariant and only extends the log |
| AuditProtocol.StepKeepsInv | core/audit.py:319-431 | every step of every process keeps the global invariant and never rewrites the log |
| AuditProtocol.RunKeepsInv | core/audit.py:319-431 | the same for every schedule |
| AuditProtocol.SharedLogIsSound | core/audit.py:319-393 | in every run the log is one gapless chain from genesis, the state describes its tip, Redis holds its newest entries, numbers are unique, and nothing committed is lost or rewritten later |
| AuditCaches.BreakIsGap | core/audit.py:665-681 | in a cache of log entries a break is reported exactly where the log position jumps |
| AuditCaches.CacheVerdictIsGaps | core/audit.py:384-391 | in every run a cache without entries of the fallback is a subsequence of the commit order, its breaks are exactly the gaps in order, and it verifies if and only if its commits are consecutive |
| AuditCaches.CacheVerdictIsExact | core/audit.py:384-431 | in every run, fallbacks included, the breaks of a cache are exactly the committed entries whose log predecessor is not the entry cached before them, in order, and it verifies if and only if there is none |
| AuditCaches.RestartLoadsChain | core/audit.py:247-265 | in every run, whatever commits between the two reads, start-up ends with no entries or a verified chain that ends at the cached tip and at the end of the log |
| AuditCaches.StartupLoadsAll | core/audit.py:247-265 | after any run, a start-up whose reads work and between which no one commits ends with exactly the stored state and all stored entries, and they verify |
| AuditCaches.SoleWriterStepKeepsTied | core/audit.py:384-391 | while no one else commits and no reply is lost, each step keeps the cache an unbroken piece reaching the end of the log |
| AuditCaches.SoleWriterVerifiesForever | core/audit.py:433-471 | from such a point on every run of the sole writer keeps verification valid, restarts included |
| AuditFaults.CleanAttemptAppends | core/audit.py:319-393 | an undisturbed attempt appends exactly one entry with the event, numbered on, linked to the tip and cached last, and the stored and cached state describe it |
| AuditFaults.ExhaustedFallsBack | core/audit.py:405-431 | a call falls back after 20 failed attempts and not before; Redis stays as it is and the cached chain goes on by one entry |
| AuditFaults.LostReplyDuplicates | core/audit.py:391-404 | a lost EXEC reply followed by a retry commits the event twice on a sound log and caches only the second copy |
| AuditFaults.LostReplyBreaksCache | core/audit.py:391-404 | after that a cache of committed entries fails verification if and only if it was not empty |
| AuditFaults.FallbackReusesSequence | core/audit.py:410-431 | the entry of a fallback and the next one appended get the same number if and only if the cached number was that of the last commit |
| AuditFaults.FallbackBreaksNext | core/audit.py:410-431 | that next entry is reported as a break if and only if the fallback entry does not have the hash of the stored tip |
| AuditNumbers.NumbersIncreaseIff | core/audit.py:384-431 | in every run the numbers in a cache strictly increase if and only if no commit comes right after entries of the fallback that reached its number |
| AuditNumbers.OvertakenIffTooClose | core/audit.py:410-431 | after n entries of the fallback that follow a commit, the next commit is so overtaken if and only if it lies at most n places after that one in the log |
| AuditNumbers.StateOfTip | core/audit.py:456-466 | entries whose tip has the hash of the loaded state also end at its number |
| AuditCalls.AppendsOnceIff | core/audit.py:319-431 | in every run one call commits one entry with its event per lost reply and one more if acknowledged, and so exactly one if and only if it was acknowledged without a lost reply or fell back after exactly one |
| AuditCalls.CopiesAreBounded | core/audit.py:319-404 | a call commits at most as many copies as it has attempts left, 20 from its start |
| AuditCalls.LogGains | core/audit.py:370-385 | what the log gains in a schedule is exactly what its steps committed, in order |
| AuditLogging.AuditLogger.constructor | core/audit.py:206-265 | the cached state is the stored one if it was read, else a fresh one, and the cached entries are all stored ones if they were read and end at its hash, else none; without a commit between the reads nothing is discarded; they verify |
| AuditLogging.AuditLogger.CreateChainEntry | core/audit.py:286-431 | acknowledged if and only if one of 20 attempts is clean: all its round trips work and no one else commits from WATCH to EXEC; then in the first such attempt, which appends exactly the entry to the log found at WATCH; otherwise, or without Redis, the entry extends the cached state only; the entries committed are the attempts that landed; the cache keeps the last 1000 |
| AuditLogging.AuditLogger.TryAppend | core/audit.py:319-391 | one pass of the retry loop commits exactly if its commands reach Redis and no one else commits from WATCH to EXEC, and is acknowledged exactly if the reply arrives as well; the entry is then the only change since WATCH, and without others a pass that does not commit changes nothing |
| AuditLogging.AuditLogger.LoadChainEntries | core/audit.py:433-471 | adopts all stored entries if they were read and end at the cached hash, otherwise none; they verify |
| AuditLogging.AuditLogger.ExportForCompliance | core/audit.py:708-731 | the export holds the entries of the range with the exact verdict, valid whenever the cache verifies and increases |
| AuditLogging.StoredEntriesVerify | core/audit.py:370-385 | what Redis holds always verifies |
| Approval.OpenPollsBounded | core/approval.py:508-535 | a timeout of t seconds leaves fewer than t + 1 polls undecided |
| Approval.TimedWaitEnds | core/approval.py:508-535 | every wait with a timeout ends |
| Approval.DecisionBeatsExpiry | core/approval.py:511-555 | the wait expires a request exactly when no poll, the last included, showed a decision; otherwise the outcome is that decision, with its time, author and notes, and a decision read from the store leaves the request filed where it was; nothing else about the gate changes |
| Approval.CallEndsWait | core/approval.py:511-535 | a call that decides the request during a sleep ends the wait with the next poll and gives its outcome, unless the store shows a decision |
| Approval.DecisionTakesEffect | core/approval.py:557-644 | a decision completes the request with status, time, author and notes; an approval makes its agent and domain known, a rejection nothing |
| Approval.ApprovalSettlesFirstTimes | core/approval.py:380-420 | after an approval the first-time conditions no longer hold for that agent and that domain; for others, for other conditions and after a rejection nothing changes |
| ApprovalService.ApprovalGate.WaitForDecision | core/approval.py:482-555 | the wait ends with the first poll that shows a decision or whose clock has reached the start plus the caller's timeout, or plus the time left until expiry; with the first poll if none is left; with neither, at the first poll that shows a decision; an unknown id is an error |
| ApprovalService.ApprovalGate.Approve | core/approval.py:557-602 | true exactly for a pending undecided request, which is then completed with the decision, its agent and domain known; the stored record gets the decision if the store is up and has one |
| ApprovalService.ApprovalGate.Reject | core/approval.py:604-644 | the same for a rejection |
| ApprovalService.ApprovalGate.RequestMoreInfo | core/approval.py:646-666 | true exactly for a pending undecided request, which stays filed as pending; the store is not told |
| ApprovalService.ApprovalGate.CreateRequest | core/approval.py:422-480 | files exactly the new pending request with its expiry, and saves it if the store is up |
| ApprovalService.ApprovalGate.CheckRequiresApproval | core/approval.py:335-378 | returns the first enabled rule whose patterns match and one of whose conditions holds, and none exactly if no rule does |
| ApprovalService.HandleRequest | agents/base.py:212-297 | a request with an invalid signed message is refused with nothing changed; otherwise the action is executed exactly if no rule asks for approval or the wait came back approved, for a request about this very agent, action and payload, filed under the first matching rule and open for exactly that rule's timeout |
| ApprovalRuns.EveryRunIsConsistent | core/approval.py:557-671 | in every run of one gate pending and completed are disjoint and hold exactly the created ids, completed requests are final, and the store never shows another decision than the gate |
| ApprovalRuns.ClosedIsForever | core/approval.py:557-671 | a request with a decision, expired or waiting for information never changes again |
| ApprovalRuns.AtMostOneDecision | core/approval.py:557-644 | as long as the gate is not rebuilt, at most one approve or reject call per id ever returns true |
| ApprovalRuns.MoreInfoIsDeadEnd | core/approval.py:567-568 | once more information was asked for, no later call decides the request |
| ApprovalRuns.KnownIffApproved | core/approval.py:575-578 | in every run an agent or domain is known if and only if it was at first or some call approved a request of that agent or about that domain |
| ApprovalRuns.FirstTimesEndWithApproval | core/approval.py:380-420 | in every run of a gate the first-time conditions ask for approval until a request of that agent, or about that domain, was approved, and never again |
| ApprovalProtocol.StepKeepsInv | main.py:1226-1242 | every step of workers, endpoints, store writes and waiters keeps every copy of a request true to its job and "approved" only where that was recorded |
| ApprovalProtocol.ExecutionFollowsApproval | agents/base.py:244-297 | in every run an executed action was preceded by a step that recorded "approved" for that very request id |
| ApprovalProtocol.CopiesDescribeTheJob | core/approval.py:251-264 | in every run every copy of a request, reloaded ones included, names the agent and action it was filed for |
| ApprovalProtocol.DecidedOncePerOpening | core/approval.py:557-644 | in every run, with any number of workers, the approve and reject calls that return true for one id are at most one more than the restarts that reopened it |
| ApprovalProtocol.WinsAreBounded | core/approval.py:251-264 | from any state on, they are at most the gates that can decide the request and the restarts that reopen it |
| ApprovalProtocol.AtMostOneWinIff | core/approval.py:251-264 | in every reachable state, over all schedules with their restarts, a filed request is decided at most once from then on if and only if at most one gate can still decide it and the store does not show it as pending |
| ApprovalProtocol.RestartFreeOnceIff | core/approval.py:557-644 | over all schedules without restarts it is decided at most once if and only if at most one gate can still decide it |
| ApprovalProtocol.PendingIsDecidedTwice | core/approval.py:251-264 | from any state in which the store shows the request as pending a worker can be made to decide it twice |
| ApprovalProtocol.RestartReloads | core/approval.py:251-285 | a restarted worker has exactly the listed stored records, whatever their status, without their decision; its waiters are gone and nothing else changes |
| ApprovalProtocol.RestartDecidesTwice | core/approval.py:251-264 | one worker that restarts between an approval and its store write can approve and then reject the same request, both successfully |
| ApprovalProtocol.EndpointsAcceptIff | main.py:1226-1242 | in every reachable state the approve and reject endpoints accept at most one decision of a filed request from then on, and then none, if and only if the store does not show it as pending |
| ApprovalProtocol.EndpointDecides | main.py:1226-1242 | an accepted endpoint decision that lands is what the next poll acts on, on any worker and even when late: an approval executes, a rejection refuses |
| ApprovalProtocol.GateDecides | core/approval.py:557-644 | a decision on the gate where the job waits is what its next poll acts on, unless the store shows one |
| ApprovalProtocol.UndecidedPoll | core/approval.py:526-555 | without a decision a poll refuses the job exactly when its time is up |
| ApprovalProtocol.RejectionHoldsUnlessStored | core/approval.py:511-535 | after a rejection on the gate, the poll leads to execution if and only if it reads an approved record |
| ApprovalProtocol.RejectedIsExecuted | core/approval.py:511-535 | a rejection that returned true can be followed by the execution of the rejected action, if an endpoint accepted an approval before |
| ApprovalProtocol.TwoGatesDecideTwice | core/approval.py:557-644 | two gates that hold the same request can approve and reject it, both successfully |
| Glob.SplitMatchesIsMatches | core/capabilities.py:92-93 | placing the pieces between stars greedily decides exactly the recursive meaning of the pattern |
| Glob.MatchesIffAligned | core/capabilities.py:92-93 | a pattern matches exactly if the text can be cut into parts, one per character of the pattern: any for a star, one character for "?", the character itself otherwise |
| Glob.FixedPrefix | core/capabilities.py:92-93 | a star-free head matches character by character and leaves the rest of the pattern the rest of the text |
| Glob.PrefixPattern | core/capabilities.py:92-93 | literal characters and a star match exactly the texts that start with them |
| Glob.MatchesItself | core/capabilities.py:95-96 | every pattern matches its own text, so the exact comparison adds nothing |
| Capabilities.PrintParseRoundTrip | core/capabilities.py:98-125 | a printed capability reads back if and only if its scope is not empty, has no newline and does not end in ".none" |
| Capabilities.ParseIsReads | core/capabilities.py:101-125 | the parser reads exactly the texts resource, ".", action, ":", a scope of one line and at most one newline, and texts ending in ".none" that name a resource once every ".none" is removed, the latter as the rule that grants nothing |
| Capabilities.NoneIsNothing | core/capabilities.py:107-113 | "resource.none" is the rule "none" on the resource |
| Capabilities.AcceptedIsPrintable | core/capabilities.py:101-125 | what the parser accepts it has read as the text says, and it prints and reads back unless the text ended in ".none" and a newline |
| Capabilities.PermitsIsAllowed | core/capabilities.py:136-153 | the decision is: some allow rule that is not "none" covers the access and no deny rule does |
| Capabilities.PermitsIsTexts | core/capabilities.py:136-170 | a parsed list permits an access if and only if some listed text of that resource and action has a scope that matches the target, and no "!" text does |
| Capabilities.NoneChangesNothing | core/capabilities.py:81-82 | texts that end in ".none", negated or not, change no decision |
| Capabilities.PermitsMonotone | core/capabilities.py:136-153 | more effective allows and fewer denies never remove a permission; order, duplicates and "none" allows do not matter |
| Capabilities.SavedRoundTrip | core/capabilities.py:204-219 | a saved set reads back as itself if and only if all its scopes are printable |
| Capabilities.FromStringsMembers | core/capabilities.py:156-170 | the allow and deny lists hold exactly the parsed rules without and with "!" |
| Capabilities.RegisteredListReloads | core/capabilities.py:184-219 | a registered list survives saving and reloading if and only if none of its strings ends in ".none" and a newline |
| Enforcement.WorkersAgree | core/capabilities.py:184-219 | a worker that reloads the record decides every access as the registered texts say, except if one of them ends in ".none" and a newline, where it denies everything |
| Enforcement.CapabilityEnforcer.RegisterAgent | core/capabilities.py:221-233 | registers exactly the lists all of whose texts can be read; the agent may then do exactly what the texts permit, other agents what they could before, and the store has the printed list if it is up; another list changes nothing |
| Enforcement.CapabilityEnforcer.LoadFromStore | core/capabilities.py:184-202 | the loop loads exactly the stored records that parse |
| Enforcement.CapabilityEnforcer.CheckPermission | core/capabilities.py:235-280 | permitted exactly for a known agent with a covering allow rule and no covering deny rule |
| TrustFilter.FilterByTrust | agents/base.py:171-206 | keeps in order exactly the strings that match no denied and some allowed pattern |
| TrustFilter.FilteredSelects | agents/base.py:171-206 | filtering keeps exactly the surviving texts, in order |
| TrustFilter.LevelSurvivors | core/trust_levels.py:65-111 | what each default level lets through: texts that start with "internal." in quarantine, also "filesystem.read:" on probation, all but "agent.spawn" for residents, everything above |
| TrustFilter.SurvivingDeniesNarrow | agents/base.py:171-206 | if every deny rule survives, the filtered set permits a subset of what the declared set permits |
| TrustFilter.ProbationWidens | core/trust_levels.py:65-111 | at the probation level a concrete list permits more after filtering |
| TrustFilter.DefaultLevelsNarrow | core/trust_levels.py:65-111 | with the default patterns filtering narrows every declared list if and only if the level is not probation |
| TrustFilter.ProbationNarrowsIff | agents/base.py:171-206 | at the probation level filtering narrows a list that parses if and only if no kept grant shares a target with a declared rule that denies reading the file system |
| Behaviour.WindowRefinesHistory | core/anomaly.py:278-285 | any window of at most an hour is the same over the pruned list and the full history |
| Behaviour.SinceIsLater | core/anomaly.py:278-285 | a window holds, in order, exactly the records later than its cutoff |
| Behaviour.RateIsOverFullHistory | core/anomaly.py:321-330 | the five-minute rate of the spike check and of the baseline is the rate over all records ever made |
| Behaviour.DenialsRefineHistory | core/anomaly.py:492-526 | the pruned denial list cut at any later time is the full failure history cut there |
| Behaviour.TimesSinceIsLater | core/anomaly.py:492-526 | a pruned denial list holds, in order, exactly the times later than its cutoff |
| Behaviour.FailuresAreFailed | core/anomaly.py:468-470 | the failures are those of the failed records, in order |
| Behaviour.ProbeIsFiveRecentFailures | core/anomaly.py:492-526 | CAPABILITY_PROBE is reported exactly on a failure with at least five failures in the last five minutes of the full history |
| Behaviour.SequentialIsInterval | core/anomaly.py:413-459 | SEQUENTIAL_ACCESS is reported exactly when the last minute of the full history has ten or more distinct numbers that form an interval and the baseline is mature |
| Behaviour.NewResourceIsUnseen | core/anomaly.py:354-368 | NEW_RESOURCE is reported exactly when the baseline is mature and no earlier record touched the resource |
| Behaviour.NewActionIsUnseen | core/anomaly.py:370-384 | NEW_ACTION is reported exactly when the baseline is mature and no earlier record is of that action |
| Behaviour.ErrorSpikeIsFrequentFailure | core/anomaly.py:461-490 | ERROR_SPIKE is reported exactly when there are 100 earlier records, the last hour of the full history has ten, and of its last 50 more than a tenth and more than twice the weighted mean of all earlier records failed |
| Behaviour.RateSpikeIsThreeDeviations | core/anomaly.py:321-352 | RATE_SPIKE is reported exactly when there are 100 earlier records, the last hour has two and the rate over the full history is above the weighted mean of all earlier rates by more than three times each weighted sum of deviations; the zero-deviation guard never decides |
| Behaviour.UnusualTimingIsRareHour | core/anomaly.py:386-411 | UNUSUAL_TIMING is reported exactly when there are over 500 earlier records and under one percent of them fall into this hour |
| Behaviour.HoursAreCounted | core/anomaly.py:567-612 | the hourly distribution counts the records of the full history per hour |
| Behaviour.BaselineSummarizes | core/anomaly.py:567-612 | in every history the mean error rate is the sum over the failed records after the first of a tenth times 0.9 per later record, the mean rate and its floored deviation are such sums too, and the largest rate is the largest |
| Averages.WeightedSnoc | core/anomaly.py:579-586 | one step of the running mean is one more term of the weighted sum |
| Averages.RaisedStep | core/anomaly.py:600-607 | one step of the deviation with its floor of 0.01 is the largest of the weighted sums that start at a floor |
| Behaviour.UpdateKeepsInv | core/anomaly.py:567-612 | one update keeps the bounds on error rate, mean, deviation and hourly counts |
| Behaviour.BaselineStaysBounded | core/anomaly.py:567-612 | in every history from a fresh baseline these bounds hold and the hourly counts sum to the number of observations |
| Behaviour.ReportsAreGraded | core/anomaly.py:321-526 | every report has the severity and review flag of its kind |
| Enumeration.SequentialIsFullInterval | core/anomaly.py:435-446 | sorted neighbours differ by one if and only if the numbers are distinct and form a full interval, in any arrival order |
| Enumeration.FirstNumberReadsBack | core/anomaly.py:427-433 | a number embedded between text is the one extracted |
| Enumeration.FirstNumberIsFirstRun | core/anomaly.py:427-433 | the number of a resource is the value of its first run of digits, leading zeros included |
| Enumeration.NoDigitNoNumber | core/anomaly.py:427-433 | a resource has no number exactly if it has no digit |
| Enumeration.NumbersAre | core/anomaly.py:427-433 | the numbers are those of the resources that have one, in order |
| Monitoring.BehaviorMonitor.Record | core/anomaly.py:251-319 | the bounded state stays what the full history replays to, the statistics stay its weighted sums, and the reports are faithful to that history |
| Monitoring.BehaviorMonitor.UpdateBaseline | core/anomaly.py:567-612 | the field by field update computes the specified baseline, which BaselineSummarizes ties to the whole history |
| Monitoring.DetectionIsFaithful | core/anomaly.py:251-319 | all seven kinds of reports mean what they say about the full history |
| RateLimiter.ApikeyLimiter.ShouldLog | core/auth.py:50-65 | the answer and the new table of one call, eviction included |
| RateLimiter.NeverOverCap | core/auth.py:43-65 | no run remembers more than 5000 actors |
| RateLimiter.RefusedOnlyWhenFull | core/auth.py:53-62 | an eligible actor is refused if and only if 5000 entries are all still inside their windows |
| RateLimiter.LoggedIff | core/auth.py:50-65 | in every run a call is logged if and only if no call of that actor was logged in the last 300 seconds and fewer than 5000 actors had one, whatever was evicted |
| RateLimiter.LogsAreSpaced | core/auth.py:50-65 | in every run two logged successes of one actor are at least five minutes apart, despite eviction |
| Memories.StoreKeepsIndexIff | agents/memory_agent.py:146-149 | storing keeps the owner index exact if and only if the id is new or already belongs to that owner |
| Memories.RunKeepsIndex | agents/memory_agent.py:146-245 | after every run of store, get, delete and cleanup with such ids the owner index is exactly the inverse image of ownership |
| Memories.MemoryStore.GetMemory | agents/memory_agent.py:151-161 | found exactly if stored, not expired, and owned by the accessor, global, or shared with it; then only its access count and time change |
| Memories.MemoryStore.DeleteMemory | agents/memory_agent.py:194-202 | removes exactly the memory and its index entry, for its owner only |
| Memories.MemoryStore.CleanupExpired | agents/memory_agent.py:235-245 | keeps exactly the memories that are not expired, unchanged, and in every owner's set exactly their ids, and counts the others |
| Memories.MemoryStore.SearchMemories | agents/memory_agent.py:172-192 | returns each once, by importance and then last access, the best min(limit, hits) live matches of the owner |
| Memories.HitIs | agents/memory_agent.py:180-187 | a search hit is live, of the kind asked for, and has the query somewhere in its text, case aside |
| Contexts.ConversationContext.AddMessage | agents/memory_agent.py:124-134 | the messages are always the last max_messages of everything added |
| Memories.MemoryStore.GetOrCreateContext | agents/memory_agent.py:204-224 | returns the valid context of the key, stored under its own id, creating an empty one for this agent and user only if there is none; it belongs to the asking agent and then to the asked user, with no user, the empty one and "system" as one, unless one agent id extends the other by a colon; keys and contexts stay in bijection |
| Memories.MemoryStore.ClearContext | agents/memory_agent.py:226-233 | removes exactly the context of the key, keeping the bijection |
| Memories.AddToContext | agents/memory_agent.py:376-398 | adds the message to the context of the key and to no other, and returns its id and number of messages |
| Memories.StoreHoldsRecentMessages | agents/memory_agent.py:204-233 | after any run the object found by a key belongs to it, holds the last 20 messages added since it was last cleared, and differs from the objects of all other keys |
| Memories.UsersAreApart | agents/memory_agent.py:204-224 | two users of one agent never share a context |
| Contexts.KeysAreInjective | agents/memory_agent.py:205-205 | unless one agent id extends the other by a colon, keys are equal exactly for the same agent and the same user |
| Contexts.UserKeys | agents/memory_agent.py:205-205 | within one agent different users have different keys; no user, the empty user and "system" share one |
| Contexts.KeysCanClash | agents/memory_agent.py:205-205 | an agent with the user "rest:v" has the key of the agent extended by "rest" with the user "v" |
| Contexts.AgentsClashIff | agents/memory_agent.py:205-205 | two different agents can meet in one context if and only if one id extends the other by a colon |
| Contexts.PlayedIsSinceClear | agents/memory_agent.py:204-233 | after any run of context operations a key is present if and only if it was used since it was last cleared, with exactly the messages added since then |
| Contexts.ContextsHoldRecentMessages | agents/memory_agent.py:124-134 | a context in the bijection belongs to its key and holds the last 20 of those messages |
| EventStream.EventGenerator | main.py:960-974 | the loop delivers the concatenated batches of its passes |
| EventStream.StrictlyIncreasingIff | main.py:960-974 | a whole run is strictly increasing if and only if no pass meets two new entries with one number |
| EventStream.AuditStreamIncreases | main.py:960-974 | in every run of the audit log, a stream over the caches of any process is strictly increasing as long as they hold no entry of the fallback |
| EventStream.AuditStreamPastFallbacks | main.py:960-974 | the same with entries of the fallback in the caches, as long as no commit was overtaken by them |
| EventStream.NothingMissedIff | core/audit.py:704-706 | over an increasing cache a client receives exactly all later entries if and only if at most 200 arrive between passes |
| EventStream.NothingExtra | main.py:960-974 | it never receives more than what was appended |
| Retention.Select | agents/backup_agent.py:421-431 | selects what is too old and then what exceeds the maximum, each once |
| Retention.ApplyRetention | agents/backup_agent.py:380-459 | deletes exactly what the policy does not keep and can be unlinked, reports the paths that cannot, and counts and bytes of what was deleted |
| Retention.UnlinkedIsUnstuck | agents/backup_agent.py:438-446 | deleted is exactly what is selected and can be unlinked |
| Retention.RetentionConserves | agents/backup_agent.py:408-459 | kept and deleted files, counts and bytes add up to the originals; at most the maximum is kept and nothing too old |
| Retention.RetentionKeepsNewest | agents/backup_agent.py:421-431 | no deleted file is newer than a kept one, a fresh file goes only when the maximum stays, and none is deleted twice |

## Left out

- SHA-256 and the canonical JSON text: the hash is an arbitrary function on the content of an entry.
- Entries with missing keys, and details that are not JSON: stored entries parse as written.
- Threads of one process inside one gate or logger method: a method acts at once, except that the polling loop lets other calls in while it sleeps, and store writes of the protocol land later than the check that caused them.
- ApprovalProtocol.StepKeepsInv: a store update merges into the record it finds when it lands, so two updates that read the same old record and overwrite each other's fields are not modelled, because Redis reads and writes of one update are one step here.
- Stored approval records with an unknown status or a malformed date: a poll answers with a parsed record, nothing, or an error.
- AuditLogging.RedisServer.OthersRun: other processes are known only by what every protocol step guarantees, not step by step as in the protocol model.
- Freshness of drawn ids: creating an id twice does not happen in the runs considered.
- Bracket classes of fnmatch patterns: `*`, `?` and literal characters are covered.
- Letters and digits outside ASCII in `\w`, `\d` and `lower()`.
- Negative limits and slice arguments, and a limit of 0 for recent entries.
- Condition strings of approval rules: conditions arrive parsed, so a malformed threshold does not occur; `_known_dids` is never filled by the source and is taken as empty.
- Priorities, descriptions, risk factors and notification callbacks of approval requests, and the status and pending-list queries.
- Trust constraints other than the default patterns, and the actions and quotas they also hold.
- ApprovalRuns.AtMostOneDecision: has no restarts of the worker; with them, ApprovalProtocol.DecidedOncePerOpening gives the bound.
- Aliasing: requests, memories and baselines are values stored in maps, so a caller that keeps a returned object and changes it later is not captured; the conversation context is an object.
- Persistence of baselines and denials, restarts of the behaviour monitor, the status of anomalies and what follows a detection.
- Rounding: real numbers stand for floats, so bounds hold without rounding error.
- EventStream.NothingMissedIff: assumes a cache with increasing numbers; AuditNumbers.NumbersIncreaseIff says when a cache has them.
- Waiting with neither timeout nor expiry: the loop is proved to stop at the first poll that shows a decision; that some poll does is up to the deciders.
- Retention reports in text, human-readable sizes, and creating or restoring backups.
- Token, key and DID authentication, HTTP routing, the signing of messages, federation, the toolroom and compliance records.
