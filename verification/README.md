# Verified models of COGNOS/OS governance

Dafny 4.11 models of the parts of COGNOS/OS that decide, record and count, with
proofs about every run of them. `dafny verify dfyconfig.toml` checks the project.

## The parts

- `AuditFormat`, `AuditTamper`, `AuditLog`, `AuditRuns`: the hash-chained, buffered,
  rotating audit log. One machine with separate stamp and push events (the code
  takes its lock twice per append), flushes that rotate by file size, wipes and
  restarts. The central result, `AuditLog.VerifyExactly`, says for every
  interleaving, also between the two unlocked reads of `verify`, exactly when the
  check accepts; the results on sequential use, rotation and racing appends follow
  from it.
- `AuditChain`, `ForensicReplay`: the in-memory typed chain and the snapshots
  rebuilt from it.
- `ApprovalFlow`, `ApprovalWatch`, `ApprovalSystem`: the human-approval gate, the
  terminal watcher that answers its dialogs, and the two composed, with any number
  of connections, foreign clients, timeouts and watcher exits interleaved.
- `Quorum`: thresholds, live and failed members, reconfiguration.
- `Base64Url`, `AuthToken`: session tokens (sections 3.2 and 5 of RFC 4648 for the
  encoding; HMAC of RFC 2104 uninterpreted).
- `GovernanceKernel`, `AuthorityCompressor`, `AnfsCache`, `Coordinator`,
  `BehavioralModel`, `ExistentialGovernor`: fast forms against simple descriptions.
- `Common` holds shared value types and `SetSum`, sums over finite sets; `Floats` is
  rounding of single-precision floats (binary32 of IEEE 754), where it decides.

Code that updates state is a class whose methods are proved to compute a function
of the old state; what the source promises is proved about runs of that function.

## Assumptions

- A digest is any function with outputs of the right shape. It is never assumed
  injective. Results read "this holds, or two different strings among the ones
  that were hashed have one digest". The collision is always placed among named
  inputs, since some collision exists for every digest.
- JSON printing and parsing of log entries are function values: serde_json prints
  every non-finite score as `null`, which reads back as an absent score; apart from
  that printing tells entries apart and parsing a printed entry gives it back, and no
  print contains a line break. UTF-8 is any strict encoding that keeps ASCII.
- Logged scores, policy risks and quorum fractions are f32 values (whole multiples of
  2^-149, -0.0, the infinities and NaN), and quorum thresholds round as f32 does;
  other floats are reals. Timestamps are integers; clocks, keys, sizes and messages
  are inputs; file writes succeed.

## Where code and documentation differ

- A log entry with a NaN or infinite score makes `verify` reject an untouched log
  (`AuditRuns.NonFiniteScoreRejected`); so do two threads that push in the other
  order than they stamped (`AuditRuns.OutOfOrderPushRejected`), a flush between the
  check's reads of the file and of the tip (`AuditRuns.FlushBetweenReadsRejected`)
  and any rotation, which every long enough run reaches (`AuditRuns.LongRunRejected`).
  `AuditLog.VerifyExactly` has the condition.
- `verify` is documented to report any tampered entry. It cannot tell apart files that
  differ only in which non-finite score an entry has, as scores `1e39` and `-1e39` give
  (`AuditTamper.InfinityChangeUnnoticed`), and barring a digest collision it tells all
  others apart (`AuditTamper.TamperEvidentFiles`).
- A comment in `rotate_static` says log.4 is deleted; the code keeps five files and
  overwrites log.5.
- "Wipe all logs" leaves the rotated files in place: none stays if and only if no
  file was ever rotated out (`AuditRuns.WipeKeepsRotated`).
- The Block prompt says that only 'yes' allows; the code also takes y and Y
  (`ApprovalFlow.BlockPromptHonoured`, `ApprovalFlow.BareYPassesBlock`).
- A human's yes is not always honoured: the reply approves if and only if the
  request's thread did not give up waiting (`ApprovalSystem.YesHonouredExactly`). It
  gives up when the yes comes after the timeout, although the watcher still shows the
  dialog and answers it (`ApprovalSystem.LateYesIsDenied`), and whenever the yes
  carries a notice too long for a 4096-byte frame, which is never sent
  (`ApprovalSystem.LongNoticeIsDenied`).
- "User denied" needs no user: a dialog too long for a frame is refused as malformed,
  and the reply says so (`ApprovalSystem.LongDialogIsDenied`).
  `ApprovalSystem.DeniedExactly` lists all the sources of that reply.
- An f32 product makes two of three members a two-thirds majority, although the f32
  nearest to 2/3 lies above it (`Quorum.TwoThirdsOfThree`;
  `Quorum.RoundingLowersExactly` has the condition), and beyond 2^24 members it can put
  a fraction of 1.0 out of reach (`Quorum.EveryoneIsNotEnough`).
- `protect` is documented to add a protected prefix; an added path protects what is
  under it if and only if it lies under a default prefix itself
  (`ExistentialGovernor.ProtectsExactly`).
- `current_bytes` is documented as the bytes held; it also counts all bytes ever
  overwritten or evicted (`AnfsCache.BytesHeldExactly`).
- A verdict issued a second or more in the future counts as expired, because a
  negative age is cast to an unsigned number (`AuthorityCompressor.LiveWindow`).
- The digest input of a request is shared with another request exactly when a field
  contains NUL (`AuthorityCompressor.PreimageIdentifies`).
- The two file caches hold the same paths only if the metadata capacity is 1024;
  the default is 4096 (`AnfsCache.SamePathsExactly`).
- Conflict resolution promises to flag both sides; a later proposal that loses stays
  unflagged (`Coordinator.AllRivalsFlaggedExactly`).
- Out of time order, `reconstruct_state` stops at the first late entry while
  `replay_range` skips it (`ForensicReplay.StopMissesExactly`).

## Model

| member | source | states |
|---|---|---|
| AuditFormat.LinesOfText | hal/src/audit_log.rs:389-394 | reading a flushed file line by line gives exactly one printed entry per written entry, in order |
| AuditFormat.CarriageReturnDropped | hal/src/audit_log.rs:239-240 | a line that ends in carriage return and line feed is read without the carriage return |
| AuditTamper.CheckChain | hal/src/audit_log.rs:239-292 | the verify loop accepts exactly the files whose lines all parse, link from the genesis digest and end at the persisted tip; otherwise it names the first bad line, or one past the end for a tip mismatch |
| AuditTamper.TamperEvident | hal/src/audit_log.rs:220-293 | two chains from genesis with the same last hash are equal entry for entry and in length, but for which non-finite score an entry has, or hashed inputs of the two collide (the 15-byte genesis input settles different lengths) |
| AuditTamper.TamperEvidentFiles | hal/src/audit_log.rs:220-293 | next to a file that passes verify against a persisted tip, another parseable file passes if, and barring a named collision only if, it holds the same entries in the same order but for which non-finite score an entry has |
| AuditTamper.FiniteFilesTold | hal/src/audit_log.rs:220-293 | so two files that pass against one tip, one of them with finite scores, hold the same entries, or a named collision |
| AuditTamper.InfinityChangeUnnoticed | hal/src/audit_log.rs:245-268 | one-line files whose scores parse to +inf and -inf and carry the same hash both pass against it |
| AuditLog.AuditLog.constructor | hal/src/audit_log.rs:103-131 | opening reads the head back from the tip file and starts with nothing pending |
| AuditLog.AuditLog.BuildEntry | hal/src/audit_log.rs:334-375 | stamps the draft with the digest of head and printed entry and moves the head to it, touching nothing else |
| AuditLog.StampRecords | hal/src/audit_log.rs:334-375 | the stamped entry has every field of the draft, no error message, and the digest of head and its own print |
| AuditLog.AuditLog.PushEntry | hal/src/audit_log.rs:154-160 | queues the entry and flushes at fifty entries or when the interval has elapsed |
| AuditLog.AuditLog.Append | hal/src/audit_log.rs:136-164 | stamping and pushing together, when no other thread comes between |
| AuditLog.AuditLog.FlushInner | hal/src/audit_log.rs:377-399 | appends the text of exactly the pending entries, after rotating a file of more than 50 MiB in UTF-8 bytes, and then persists the head; does nothing when nothing is pending |
| AuditLog.AuditLog.Rotate | hal/src/audit_log.rs:401-426 | the shifting loop moves every rotated file up by one, overwrites log.5, and makes the current file log.1 |
| AuditRuns.RotatesExactly | hal/src/audit_log.rs:377-399 | after any run a flush with something pending rotates the current file exactly when it has more than 52428800 bytes |
| AuditLog.AuditLog.Wipe | hal/src/audit_log.rs:307-330 | clears pending entries and tip, sets the current file aside, returns to the genesis head, leaves rotated files alone |
| AuditLog.AuditLog.ReadLog | hal/src/audit_log.rs:220-237 | the first half of verify: flushes and reads the current file |
| AuditLog.AuditLog.CheckAgainstTip | hal/src/audit_log.rs:239-292 | the second half, after any other calls: valid exactly when the content read is a sound chain ending at the tip persisted by now |
| AuditLog.RunKeepsInv | hal/src/audit_log.rs:103-426 | in every interleaved run: stamped entries form a chain ending at the head, the tip is the head of the last writing flush, files hold the text of what was flushed into them, and slots hold the most recently retired files |
| AuditLog.VerifyExactly | hal/src/audit_log.rs:220-293 | for every interleaving of stamps, pushes, rotating flushes, wipes and restarts, before and between the check's reads of the file and of the tip: it accepts if, and barring a named collision only if, the file at the first read held exactly the entries sealed by the last writing flush before the second, in stamping order, all with finite scores |
| AuditLog.AcceptedExactly | hal/src/audit_log.rs:136-171 | the same for a state of the log: it is accepted if, and barring a named collision only if, the current file holds exactly the entries stamped since the last wipe up to the last writing flush, in stamping order, all with finite scores |
| AuditRuns.SequentialVerify | hal/src/audit_log.rs:136-171 | with one caller at a time, verify accepts exactly when nothing has been rotated out since the last wipe and all scores are finite, or a named collision; and then everything appended is on disk |
| AuditRuns.QueryReadsCurrent | hal/src/audit_log.rs:176-194 | in every sequential run each line a query reads parses back, and to exactly the entries of the current file as printed (non-finite scores read back as none) |
| AuditRuns.RunRecordsDrafts | hal/src/audit_log.rs:136-171 | after every sequential run the entries flushed since the last wipe and those pending record, field for field and in order, the drafts appended since then and not lost in a restart, by a ledger of the operations alone |
| AuditRuns.RaceRecordsDrafts | hal/src/audit_log.rs:149-160 | with racing threads too, stamped and pushed entries record the drafts in order, each thread pushing its own |
| AuditRuns.QueryReturnsDrafts | hal/src/audit_log.rs:176-194 | a query without a filter returns the latest of those drafts, all of them if nothing was rotated out, with non-finite scores absent |
| AuditRuns.UnrotatedRunVerifies | hal/src/audit_log.rs:505-516 | every sequential run without rotation and with finite scores verifies |
| AuditRuns.RestartLosesOnlyPending | hal/src/audit_log.rs:103-131 | dropping and reopening loses exactly the unflushed entries, keeps all files, and resumes from the last flushed hash |
| AuditRuns.FewPending | hal/src/audit_log.rs:154-160 | at most 49 entries are ever pending, so a restart loses at most 49 |
| AuditRuns.RotationKeepsSuffix | hal/src/audit_log.rs:401-426 | in every wipe-free sequential run the at most five rotated files, oldest first, and then the current file are a contiguous suffix of everything flushed, and the hash link holds across every file boundary |
| AuditRuns.RotatedRunRejected | hal/src/audit_log.rs:239-292 | once a file has been rotated out, the check started at genesis rejects the current file, or a named collision |
| AuditRuns.LongRunRejected | hal/src/audit_log.rs:377-387 | more than 50 * 1024 * 1024 + 1 appends that flush at once, whatever they log, force a rotation, after which the check rejects, or a named collision |
| AuditRuns.WipeKeepsRotated | hal/src/audit_log.rs:306-330 | after any run, wiping sets the former current file aside and leaves the last at most five rotated files; none is left if and only if no file was ever rotated out |
| AuditRuns.RacingAppends | hal/src/audit_log.rs:149-160 | with racing threads and no wipe, restart or rotation: verify accepts exactly when, at the last flush that wrote, the entries pushed so far were all entries stamped so far in stamping order with finite scores, or a named collision |
| AuditRuns.RaceHistory | hal/src/audit_log.rs:347-372 | what is on disk is what had been pushed, and the tip covers what had been stamped, at the last writing flush |
| AuditRuns.OutOfOrderPushRejected | hal/src/audit_log.rs:149-160 | two honest appends that stamp in one order and push in the other are rejected, or a named collision |
| AuditRuns.FlushBetweenReadsRejected | hal/src/audit_log.rs:228-279 | an honest append flushed between the reads of the file and of the tip makes the check reject, or a named collision |
| AuditRuns.NonFiniteScoreRejected | hal/src/audit_log.rs:255-268 | one honest entry with a non-finite score is rejected, or a named collision |
| AuditChain.CheckEntries | hal/src/audit_chain.rs:140-196 | the verify loop accepts exactly the good chains and otherwise reports the first bad entry's sequence number and how many were inspected |
| AuditChain.AuditChain.Append | hal/src/audit_chain.rs:123-137 | adds one entry numbered by position and hashed onto the head |
| AuditChain.AuditChain.Verify | hal/src/audit_chain.rs:140-196 | the same verdict for the chain's own entries |
| AuditChain.GrownIsGood | hal/src/audit_chain.rs:115-137 | every chain grown from new() verifies, keeps payloads in order, numbers them by position and has the last hash as head |
| AuditChain.TamperLocalised | hal/src/audit_chain.rs:140-196 | replacing only the payload of entry k goes unnoticed exactly when it prints the same; otherwise entry k is the first and only bad one, or the two inputs hashed there collide |
| AuditChain.SameHeadSamePayloads | hal/src/audit_chain.rs:242-252 | two verifying chains with one last hash carry the same payload sequence (scores printed as null identified), or their hashed inputs collide |
| ForensicReplay.ReconstructState | hal/src/forensic_replay.rs:139-175 | the loop folds exactly the entries before the first one later than the requested time |
| ForensicReplay.FoldSummarises | hal/src/forensic_replay.rs:147-166 | the fold has the per-agent counts, each agent's last event, the highest score and the confirm-or-block count of the last hour, and its counts add up to the number of entries |
| ForensicReplay.SnapshotCounts | hal/src/forensic_replay.rs:147-155 | each agent's count is the number of its entries and its last event has the fields of its last entry |
| ForensicReplay.SnapshotLastHour | hal/src/forensic_replay.rs:145-166 | of entries less than 3600 seconds before the requested time: the number with level confirm or block, and a highest score, none exactly without scores |
| ForensicReplay.StopMissesExactly | hal/src/forensic_replay.rs:129-150 | for every window that ends at the requested time, the entries before the stopping point yield all its events exactly when no entry from there on lies in the window |
| ForensicReplay.CoversReplayRange | hal/src/forensic_replay.rs:129-150 | the snapshot covers exactly the events of replay_range when, besides, no entry before the stopping point is earlier than the window |
| ForensicReplay.OrderedAgreement | hal/src/forensic_replay.rs:129-175 | for chains in time order no window loses an event, and the snapshot's counts sum to the replayed range's length exactly when no covered entry is earlier than the window, and then it covers that range |
| ForensicReplay.UnorderedDiffers | hal/src/forensic_replay.rs:147-150 | an early entry behind a late one is replayed but not reconstructed |
| ApprovalFlow.ClassifyExactly | hal/src/approval_flow.rs:94-136 | exactly the harmless requests (one of the seven agents, not AI-generated, no Confirm action, no absolute target that does not begin with home) pass without a human; Block has its exact causes; scores lie in the bands of their levels |
| ApprovalFlow.ScoresExactly | hal/src/approval_flow.rs:94-136 | each of the seven scores has its own requests, said without the order of the rules |
| ApprovalFlow.BlockPromptHonoured | hal/src/approval_flow.rs:406-416 | for a request at the Block level answered at the terminal, the reply keeps the prompt's promise that only yes allows exactly unless the answer is y or Y |
| ApprovalFlow.BareYPassesBlock | hal/src/approval_flow.rs:406-416 | an AI-generated binary at the Block level is approved by the line y |
| ApprovalFlow.ApprovedExactly | hal/src/approval_flow.rs:224-417 | whatever message arrives and however the human side goes, the reply approves exactly for a known agent's request other than modify_hal that is harmless or gets approved true from the UI or yes, y or Y at the terminal |
| ApprovalFlow.ReasonsExactly | hal/src/approval_flow.rs:224-417 | for every message and end of the human side, each reason of a reply has its exact cause; an automatic approval is given exactly to the harmless requests, so never to an absolute target outside home |
| ApprovalFlow.LineExactly | hal/src/approval_flow.rs:257-310 | a parsed request gets one audit line, with the reply's score, the level of its band, the outcome of its reason and the note of its security event; other messages get none |
| ApprovalFlow.HalDaemon.HandleConnection | hal/src/approval_flow.rs:224-311 | per message and human outcome, the audit lines added and the reply sent, including the silent drop and the unaudited error replies |
| ApprovalWatch.Watcher.DrainArrivals | cli/src/approval_watch.rs:111-137 | queues well-formed dialogs in arrival order and refuses malformed ones at once |
| ApprovalWatch.Watcher.MainLoop | cli/src/approval_watch.rs:104-219 | over any script of arrivals and keys: queue, answers written and return status |
| ApprovalWatch.WatchConserves | cli/src/approval_watch.rs:104-219 | in every run the dialogs answered, in answering order, followed by the queue are exactly the well-formed dialogs read, in reading order; after a normal return the queue is empty |
| ApprovalWatch.ApprovalNeedsKey | cli/src/approval_watch.rs:163-216 | a pass approves only when a, A, n or N is pressed without control, and then only the dialog at the front |
| ApprovalWatch.ApprovalsNeedYes | cli/src/approval_watch.rs:163-216 | the same for all answers of a pass at once, and no earlier answer is retracted |
| ApprovalWatch.KeysDo | cli/src/approval_watch.rs:173-291 | with a dialog queued: a allows the front, n allows it with the trimmed notice, d and Esc refuse it, q refuses the whole queue in order and stops, in either case and without control; every other key does nothing; an answer goes out unless it has more than 4096 bytes |
| ApprovalWatch.KeysDoWhenIdle | cli/src/approval_watch.rs:139-161 | with none queued only q does anything: it stops the watcher |
| ApprovalWatch.DrainRefuses | cli/src/approval_watch.rs:111-137 | reading arrivals answers only with refusals of malformed dialogs, and says so |
| ApprovalWatch.TickDenies | cli/src/approval_watch.rs:111-216 | a pass sends a refusal on a stream exactly when the stream arrives malformed, is at the front when d, D or Esc is pressed, or is queued when q or Q is, without control |
| ApprovalWatch.TickHolds | cli/src/approval_watch.rs:104-219 | no pass loses a stream or answers one twice |
| ApprovalSystem.ApprovedOnlyWithYes | hal/src/approval_flow.rs:224-417 | over every interleaving, an approving reply is AutoApproved for a harmless request, or UserApproved for a known agent's request other than modify_hal to which a human said yes in this run: a, A, n or N without control with its stream at the front, or yes, y or Y typed |
| ApprovalSystem.AuditedOnce | hal/src/approval_flow.rs:257-310 | every parsed request that has a reply has exactly one audit line, with the matching outcome; all other connections have none |
| ApprovalSystem.AnsweredAtMostOnce | cli/src/approval_watch.rs:163-216 | a connection's stream is answered at most once |
| ApprovalSystem.SentAnswerDecides | hal/src/approval_flow.rs:357-386 | a waiting connection that reads its answer gets exactly the decision sent on its own stream |
| ApprovalSystem.YesHonouredExactly | hal/src/approval_flow.rs:334-417 | in every run a finished request to which a human said yes is approved if and only if its thread did not give up waiting; no other connection, foreign client, refused stream or watcher exit turns a yes into a refusal |
| ApprovalSystem.UnsentAnswerTimesOut | ipc/grpc/src/approval_ui.rs:65-76 | if the answer on a stream was too long to be sent, its thread is still waiting or gave up, and the request is then denied by timeout |
| ApprovalSystem.LateYesIsDenied | hal/src/approval_flow.rs:357-363 | for every request that asks a human, the run in which the timeout comes first and then the allow key: the watcher answers with an approval and the reply is a denial |
| ApprovalSystem.LongNoticeIsDenied | ipc/grpc/src/approval_ui.rs:65-76 | for every such request, the run in which an allow with an oversized notice comes in time: nothing is sent and the reply is a denial |
| ApprovalSystem.DeniedExactly | hal/src/approval_flow.rs:334-417 | in every run a reply says the user denied exactly when something other than a yes was typed, or the thread read the answer of a watcher that had refused it by a deny key at the front, by quitting, or as malformed |
| ApprovalSystem.LongDialogIsDenied | cli/src/approval_watch.rs:111-137 | for every request that asks a human with a dialog over 4096 bytes, the run in which the reply says the user denied though no key was pressed |
| Quorum.ThresholdLeast | cluster/src/quorum.rs:105-115 | the threshold is the least count that is more than half, at least the f32 product of membership and clamped fraction, or everyone |
| Quorum.RoundingLowersExactly | cluster/src/quorum.rs:109-112 | up to 2^24 members f32 rounding never raises the exact threshold and lowers it, by one, exactly when the product rounds down to the whole number below |
| Quorum.SuperAboveHalf | cluster/src/quorum.rs:109-112 | an f32 fraction above one half gives a threshold above one half for every number of members, rounding of both the number and the product included |
| Quorum.TwoThirdsOfThree | cluster/src/quorum.rs:109-112 | with the f32 nearest to two thirds, two of three are enough though the exact product exceeds two |
| Quorum.EveryoneIsNotEnough | cluster/src/quorum.rs:109-112 | 2^24 + 3 members with a fraction of 1.0 need 2^24 + 4 |
| Quorum.MajorityReachableExactly | cluster/src/quorum.rs:119-148 | in every run some respondent set is a majority exactly while fewer than half of the members are failed |
| Quorum.MarksDecide | cluster/src/quorum.rs:87-163 | after every run from new, a node is failed exactly when it is a member and the last mark on it since the last reconfiguration is a failure, and live exactly when it is a member and not so |
| Quorum.CountedRespondents | cluster/src/quorum.rs:119-129 | after every run a decision counts exactly the respondents that are members and not last marked failed |
| Quorum.QuorumTracker.MarkAlive | cluster/src/quorum.rs:132-138 | moves a failed node to live and changes nothing for any other node |
| Quorum.QuorumTracker.MarkFailed | cluster/src/quorum.rs:141-148 | moves a live node to failed and changes nothing for any other node |
| Quorum.QuorumTracker.Reconfigure | cluster/src/quorum.rs:157-163 | replaces the membership, all live, and advances the wrapping epoch |
| Quorum.RunKeepsPartition | cluster/src/quorum.rs:70-85 | live and failed partition the members in every run |
| Quorum.QuorumsIntersect | cluster/src/quorum.rs:105-163 | under Majority, All or an f32 Supermajority above one half, respondent sets accepted at two points of a run with the same epoch number (fewer than 2^64 reconfigurations between) share a member, whatever was marked meanwhile |
| Quorum.MajorityAcrossOneNode | cluster/src/quorum.rs:157-163 | majorities accepted before and after adding or removing one node share a node |
| Quorum.MeetExactly | cluster/src/quorum.rs:105-163 | whatever is failed in either tracker, sets accepted by two configurations always meet if and only if one has too few live nodes to accept any, or the two thresholds together exceed the number of nodes live in either |
| Quorum.AllLiveMeetExactly | cluster/src/quorum.rs:105-163 | two memberships with every node live and thresholds within reach: if and only if their thresholds together exceed the number of nodes in either |
| Quorum.OneConfigurationExactly | cluster/src/quorum.rs:105-129 | within one non-empty configuration with every node live, if and only if twice the threshold exceeds the membership |
| Quorum.DisjointReconfiguration | cluster/src/quorum.rs:150-163 | replacing the whole membership lets disjoint sets be accepted |
| Base64Url.RoundTrip | agents/auth.py:67-75 | unpadded URL-safe decoding undoes encoding for every byte string, and the text has no dot |
| Base64Url.PadBitsZero | agents/auth.py:67-69 | the bits of the last character that encode nothing are zero (section 3.5 of RFC 4648) |
| AuthToken.DecimalRoundTrip | agents/auth.py:102-102 | reading a printed integer gives it back |
| AuthToken.CreatedTokenVerdict | agents/auth.py:92-150 | the verdict on a created token for every expected agent, secret and time, in the order of the checks |
| AuthToken.TokenRoundTrip | agents/auth.py:92-150 | an unexpired token verifies for its agent and secret and returns its agent and expiry |
| AuthToken.VerifiedExactly | agents/auth.py:113-150 | any token verifies, for this agent and expiry, exactly when the agent is the expected one, the expiry is later than now, and it is three dot-free parts that decode to the agent, to a spelling of the expiry, and to the HMAC of agent, bar and printed expiry |
| AuthToken.MessageInjective | agents/auth.py:104-105 | different agent and expiry pairs never sign the same message, even with '\|' in agents |
| AuthToken.SignatureBindsPair | agents/auth.py:113-150 | two accepted tokens with one signature name the same agent and expiry, or two messages share an HMAC |
| GovernanceKernel.MatchesMonotone | hal/src/governance_kernel.rs:70-79 | raising only the risk never makes a condition stop matching, for f32 risks with NaN |
| GovernanceKernel.MatchesMeans | hal/src/governance_kernel.rs:70-79 | each leaf compares its own field of the request, and the connectives are conjunction and disjunction |
| GovernanceKernel.DependsOnNamedFields | hal/src/governance_kernel.rs:70-79 | a condition depends on nothing but the fields it names, and never on the target |
| GovernanceKernel.GovernanceKernel.InstallPolicy | hal/src/governance_kernel.rs:170-190 | refuses a known id before a reserved priority, and otherwise sorts the policy in |
| GovernanceKernel.GovernanceKernel.RemovePolicy | hal/src/governance_kernel.rs:193-201 | drops the policy and says whether there was one |
| GovernanceKernel.GovernanceKernel.Evaluate | hal/src/governance_kernel.rs:205-226 | the verdict of the first match in the table with its reason and time, or denial |
| GovernanceKernel.UniqueStableSort | hal/src/governance_kernel.rs:184-186 | a stable sort by priority is unique, so the library sort can only give this table |
| GovernanceKernel.TableSortsLive | hal/src/governance_kernel.rs:170-201 | after every history the table is the stable sort of the installed policies, whose ids are unique |
| GovernanceKernel.InstalledExactly | hal/src/governance_kernel.rs:170-190 | after every history an installation counts exactly when its id is not installed and its priority is not from -1000 to -1 |
| GovernanceKernel.RemovedExactly | hal/src/governance_kernel.rs:193-201 | after every history a removal takes out exactly the policy of that id and keeps the order of the others |
| GovernanceKernel.EvaluateIsBest | hal/src/governance_kernel.rs:205-226 | after every history evaluation gives the effect, id, description and priority of the matching installed policy of greatest priority, earliest among ties, and denies without a policy exactly when none matches |
| GovernanceKernel.InstallsCommute | hal/src/governance_kernel.rs:170-190 | two acceptable installs commute exactly when their priorities differ |
| GovernanceKernel.RemoveUndoesInstall | hal/src/governance_kernel.rs:193-201 | removing a policy just installed restores the table |
| AuthorityCompressor.PreimageIdentifies | hal/src/authority_compressor.rs:73-89 | a request's digest input is its own exactly when agent, action and target are NUL-free |
| AuthorityCompressor.LiveWindow | hal/src/authority_compressor.rs:262-269 | a verdict is live exactly from just under one second before its issue time to just under ttl + 1 seconds after, and, for times to live above 2^63 seconds, again 2^64 - ttl seconds or more before it |
| AuthorityCompressor.LruCache.Insert | hal/src/authority_compressor.rs:164-173 | a new key evicts the oldest at capacity; a present key keeps its place |
| AuthorityCompressor.Compressor.Compress | hal/src/authority_compressor.rs:246-284 | hit or miss for the present cache, with the hit counter advanced only on a hit |
| AuthorityCompressor.Compressor.Store | hal/src/authority_compressor.rs:289-297 | caches a reversible action's verdict and resets its hits; ignores an irreversible one |
| AuthorityCompressor.Compressor.Invalidate | hal/src/authority_compressor.rs:302-320 | drops everything |
| AuthorityCompressor.HitIsLatestStore | hal/src/authority_compressor.rs:246-297 | every hit returns the verdict of the most recent store since the last invalidation for a request with the same four fields, unexpired, or the two digest inputs collide; and counts the hits since that store |
| AuthorityCompressor.HitsExactly | hal/src/authority_compressor.rs:246-297 | after any history a lookup hits exactly when the request is reversible, its key is among the last max(capacity, 1) to have entered since the last invalidation, and its latest store is unexpired |
| AuthorityCompressor.HoldsLatestEntries | hal/src/authority_compressor.rs:164-173 | insert order is duplicate-free, lists exactly the cached keys, and is the last max(capacity, 1) keys to have entered |
| AnfsCache.LruCache.Insert | anfs/src/cache.rs:99-115 | the new contents and order, and the evicted entry |
| AnfsCache.LruCache.Remove | anfs/src/cache.rs:118-121 | the entry leaves both map and order |
| AnfsCache.Cache.Insert | anfs/src/cache.rs:259-287 | both caches and the saturating byte count after an insert |
| AnfsCache.Cache.Invalidate | anfs/src/cache.rs:290-298 | both caches and the saturating byte count after an invalidation |
| AnfsCache.BytesConserved | anfs/src/cache.rs:259-298 | while no addition saturates, the count is the live bytes plus all bytes ever overwritten or evicted; it never undercounts and no subtraction saturates |
| AnfsCache.ConservedExactly | anfs/src/cache.rs:259-298 | the count is the live bytes plus those ever overwritten or evicted all through a run if and only if no addition in it saturates |
| AnfsCache.SmallRunsNeverFull | anfs/src/cache.rs:259-262 | no addition saturates while less than 2^64 bytes were ever inserted |
| AnfsCache.BytesHeldExactly | anfs/src/cache.rs:220-221 | while no addition saturates, the count is the bytes held if and only if no insert overwrote or evicted a byte |
| AnfsCache.RunAgrees | anfs/src/cache.rs:274-286 | a path in both caches has the same size and tags in both, in every run |
| AnfsCache.HoldsLatestInsert | anfs/src/cache.rs:259-298 | a path holds the bytes and tags of its latest insert in either cache, is in neither without one or once invalidated, and is in both right after it |
| AnfsCache.SamePathsExactly | anfs/src/cache.rs:228-236 | the two caches hold the same paths in every run if and only if the metadata capacity is 1024 |
| Coordinator.ResolveConflicts | agents/coordinator.py:292-328 | the loop returns the subsequence of proposals at least as confident as every earlier and more confident than every later one on the target, sets exactly the flags and notes and writes the log that the next rows describe, also when a list names one object twice |
| Coordinator.NotesExact | agents/coordinator.py:311-323 | for distinct objects, a proposal's note names the last rival that found it holding the target, or else the holder that it beat on arrival, or there is none |
| Coordinator.LogExact | agents/coordinator.py:302-309 | exactly the proposals whose target was proposed before are logged, in order, each against the holder it found |
| Coordinator.FlagsExact | agents/coordinator.py:312-323 | the loop flags exactly the proposals that no earlier rival beats and that have a rival |
| Coordinator.KeptFlagged | agents/coordinator.py:312-323 | a kept proposal is flagged exactly when its target had several |
| Coordinator.OnePerTarget | agents/coordinator.py:302-328 | exactly one proposal is kept per proposed target |
| Coordinator.ResolutionIdempotent | agents/coordinator.py:292-328 | resolving the output again returns the same list |
| Coordinator.AllRivalsFlaggedExactly | agents/coordinator.py:295-298 | all rivals are flagged, as the docstring says, exactly when no proposal is less confident than an earlier rival |
| BehavioralModel.BehavioralModel.Observe | hal/src/behavioral_model.rs:47-56 | the agent's window after one more observation; other agents untouched |
| BehavioralModel.WindowIsLatest | hal/src/behavioral_model.rs:47-56 | the window is always the last at most 200 observations of the agent's full trace |
| BehavioralModel.FlipsBounded | hal/src/behavioral_model.rs:153-163 | outcome flips are at most twice the successes and twice the failures |
| BehavioralModel.VolatilityBoundedByStability | hal/src/behavioral_model.rs:76-98 | volatility is bounded by stability and by its complement |
| BehavioralModel.RecentFailuresBounded | hal/src/behavioral_model.rs:85-89 | recent failures are at most twenty and at most all failures |
| BehavioralModel.SharesSay | hal/src/behavioral_model.rs:76-98 | stability is the share of successful positions of the window and volatility that of positions where the outcome changes |
| BehavioralModel.CountsSay | hal/src/behavioral_model.rs:62-98 | escalations count positions of the window, recent failures those among its last twenty, and an unknown agent gets the neutral values |
| BehavioralModel.MetricExtremes | hal/src/behavioral_model.rs:76-98 | stability is 1 exactly without failures and 0 exactly without successes; volatility is 0 exactly when all outcomes are equal |
| BehavioralModel.EstablishedHoursBounded | hal/src/behavioral_model.rs:104-121 | at most twenty distinct hours score as established |
| BehavioralModel.NoveltyExtremes | hal/src/behavioral_model.rs:125-149 | novelty is one half without a baseline, 0 exactly when every recent action occurred before in the window, 1 exactly when none did, and always between |
| BehavioralModel.TimeAnomalyTiers | hal/src/behavioral_model.rs:104-121 | an hour scores 1 exactly when a known agent never had it, 0 exactly from one twentieth of the observations on, and one half otherwise |
| ExistentialGovernor.Governor.Classify | hal/src/existential_governor.rs:215-244 | scanning the set in any order gives the direct lookup of the target among the nine defaults, whatever was added by protect |
| ExistentialGovernor.ProtectsExactly | hal/src/existential_governor.rs:152-155 | everything under a path is a threat if and only if the path itself lies under a default prefix, so adding any other path protects nothing |
| ExistentialGovernor.Governor.Evaluate | hal/src/existential_governor.rs:157-185 | safe exactly when no default prefix matches, catastrophic exactly when the matching threat's switch is armed, and otherwise threatens |
| ExistentialGovernor.ThreatUnique | hal/src/existential_governor.rs:215-244 | the direct lookup has one answer, since no default prefix extends another |
| ExistentialGovernor.ThreatsInWords | hal/src/existential_governor.rs:215-258 | which prefixes stand for which threat |

## Left out

- AuditLog.VerifyExactly: the other direction allows for a digest collision, as no digest is injective; the collision is among the strings hashed in the run or by the check. A read of the file in the middle of a flush's writes or of a rotation's renames is not modelled.
- AuditChain.SameHeadSamePayloads: payloads are compared up to scores printed as null, which the printed form cannot tell apart.
- Coordinator.ResolveConflicts: the text and time of a conflict's audit line, and a NaN confidence.
- AuthToken.CreatedTokenVerdict: non-ASCII digits in an expiry and Python's limit on the digits of a printed integer.
- GovernanceKernel.EvaluateIsBest: a verdict's reason is kept as the values its text is made from.
- Canonical JSON of entries with a metadata map: printing is a function of the entry, while the iteration order of a HashMap may differ after deserialization.
- Filters of audit queries, export and printing: each is one pass without state.
- Failed file writes, poisoned locks, and other processes writing to the audit file.
- Accept queues, partial frames and real time: a message arrives whole or not at all, and a timeout may strike at any moment.
- Expiry, dirty flags and in-place edits of cached file entries.
- Envelope signatures: their fields are joined without escaping and only feed an HMAC.
- Raft, policy parsing, model checking, capability search, tokenizers, installers and user interfaces: stubs, foreign calls or input and output.
- Confidence, risk and permission arithmetic and the small state machines elsewhere in hal: each rule there is one branch, one table lookup or one clamp of a constant.
