# stackr control logic, verified

A Dafny model of the deterministic control logic of stackr, with proofs about it. Six parts:

1. **Cluster root rollover** (`ClusterCA`, `Rollover`, `Cluster`, `Runs`, `Settle`, `Outage`,
   `ClockStep`, `Undisturbed`, `Controller`). The disk files, the `cluster_ca` row, the trust list in memory, the node and cert
   rows, and what each worker holds form one state. Starting, ticking, finishing, forcing, breaking
   glass, mending, asking, answering, losing an answer, joining, dying and booting are its events;
   a fault plan says which store or file operation fails or kills the process. `Controller` holds the
   same operations as methods of a class that change its fields step by step; each is proved equal to
   its specification function in `Rollover`, and the theorems about whole runs are about those functions.
2. **Mesh routing** (`Mesh`, `Peers`, `Delivery`, `Conservation`): the breadth-first search, the choice of next hops
   and the peer lists as methods with loops, against walks in a graph; then what all nodes' lists
   together do to a packet.
3. **Exit ladder and rule plans** (`Kernel`, `Chains`, `Subjects`, `BlockFaults`, `Traffic`, `Ladder`, `LadderRuns`,
   `LadderRules`, `LadderPicks`, `LadderGap`, `LadderLeftovers`, `RuleLists`, `Links`, `Gate`, `LinkTraffic`, `Refill`, `Fence`, `Serve`, `HostInput`, `Hooks`, `ExitPath`): a kernel of
   policy rules, routes and ordered firewall chains that plan steps change, any command of which may fail.
4. **Uninstall's firewall rewrite** (`Purge`, `PurgeProofs`, `Uninstall`): from the words of a dump to the
   words of a restore script, and what restoring it does.
5. **Worker binary swap** (`Swap`, `SwapProofs`, `SwapInputs`, `SwapCrash`): the file protocol with any operation failing, every
   intermediate disk recorded.
6. **Small algorithms** (`Glob`, `EditDistance`, `PlanFilter`).

## What came out

These promises of the code or its comments do not hold as written. Each has a lemma at an input that
shows it, and the condition under which the promise holds.

- `carollover.go:42-46`: the settle window does not protect a worker that only asks within it, whoever
  listens. If the controller is down for the window, the first tick after it drops the old root although
  the worker asked every hour (`Outage.AskingIsNotEnough`). A worker that keeps asking a running
  controller with its cert from the old root is never stranded (`Settle.NobodyStranded`), and
  `Settle.PassedOverExactly` says exactly whom a finish leaves behind.
- `carollover.go:367-405`: a mend keeps the finish stamp of the rollover before. With a clock set back
  behind that stamp the mended rollover does not count as running, the next start goes through, and a
  confirmed worker's live cert is from a root nobody trusts (`ClockStep.SetBackClockCutsOff`). The
  previous root stays trusted through a start exactly when the clock has passed the stamp
  (`ClockStep.OldCertsSurvive`). In runs the times of events rise, so there it always has.
- `ladder.go:117-119`: after a rule change that failed halfway, a tick in which the old rung answers again
  reports success and leaves the rules incomplete (`LadderRules.StaleAfterFailure`). And a change to the
  own uplink that loses a delete reports success too, and leaves a rule to the exit given up
  (`LadderLeftovers.LeftoverOnOwnUplink`). `LadderRules.RulesAgreeExactly` says for every last change when
  report and rules agree: one that went through, unless it was to the own uplink and lost a delete; one
  that failed on the own uplink, if it lost no delete and failed at its first add; one that failed on an
  exit or Down, if it left the old block whole (`BlockFaults.StaysWhole`, with
  `LadderLeftovers.FailedYetAgrees` as an input).
- `plan.go:214-216` sends what main would default to the exit's table. Where a live exit's table has no
  route the packet meets the host's own rules, as on the own uplink (`LadderRules.OwnUplinkOnly` is
  exact). A repeated Up that stops after its first step leaves a live exit so
  (`ExitPath.RepeatedUpLosesExit`, `ExitPath.LeaksAfterRepeatedUp`).
- `ladder.go:57-62`: a rung can be taken back on probes that were not consecutive, across a tick whose
  rule change failed before the rung was asked (`LadderGap.RecoversAcrossGap`). They are consecutive
  exactly when no tick since the first of them was such a one (`LadderRuns.RecoveredGapsExactly`,
  `LadderRuns.GivenUpGapsExactly`).
- `hosthelper.go:54-58`: a binary whose `Stat` fails for another reason than absence gets no `.prev`, and
  one whose rename back fails is only logged; either way a rollback leaves the new file
  (`SwapInputs.BadStatLosesOld`). `SwapInputs.FailureKeepsOld` says from the swap's inputs when a failed
  swap leaves every old file.
- `hosthelper.go:51-58`: a crash during the rollback of a swap whose commit came but could not be read
  leaves old and new mixed under a marker no worker repairs (`SwapCrash.MissedCommitMixes`);
  `SwapCrash.CrashNeverMixes` is exact. And a swap may not begin over a pending one: a worker's recovery
  can then put a torn file in place (`SwapCrash.SafeStartExactly`).
- `uninstall.go:540-545`: a rule whose quoted comment has blanks and mentions a stackr chain after a `-j`
  is deleted too (`Uninstall.QuotedBlankOverDeletes`, and `Uninstall.EscapedQuoteOverDeletes` with a
  quote in the comment). Nothing of stackr's is missed, and `Uninstall.WordsAgainstArguments` says
  exactly of which rules the word test is right.
- `plan.go:359-360` says nothing but echo requests from an exit link reaches the host. The drop is
  appended behind the host's own INPUT rules, so whatever those accept, jumps followed, gets in:
  `HostInput.HostReached` is exact and `HostInput.OpenHostIsReached` shows such a host.

## Conventions

A fingerprint is a number that names one root; certs are records. Times are nanoseconds. `broken`, `Faults`
and `Env` are arbitrary: theorems hold for every choice. Where a theorem needs some operation to have
worked it says so in a `requires` or on the left of an implication. `map`, `seq` and `set` stand for Go's maps, slices and
sets; Go's `int` values involved (counters, priorities, tables) stay far below any width.

## Model

| member | source | states |
|---|---|---|
| ClusterCA.Verify | internal/clusterca/clusterca.go:196-262 | a chain is accepted exactly when its leaf is sound, for the role and node asked, and a listed root that is itself in time signed it; who the peer then is; out of time and unsigned are told apart |
| Rollover.Newest | internal/service/carollover.go:411-439 | the newest cert of a node that is not revoked, with none newer and live |
| Rollover.Stragglers | internal/service/carollover.go:411-439 | exactly the confirmed workers whose newest live cert is from another root or younger than the settle window |
| Controller.Orchestrator.ReconcileRollover | internal/service/carollover.go:367-405 | the mend, step by step with every store and file failure, makes the state its specification gives |
| Controller.Orchestrator.RotateCA | internal/clusterca/clusterca.go:457-469 | the files after a rotation, and after one that fails or dies at any step |
| Controller.Orchestrator.StartRollover | internal/service/carollover.go:216-267 | the start from the mend to the saved row, at every failure and death |
| Undisturbed.FailedStart | internal/service/carollover.go:235-247 | a start that fails leaves the root in use without a cross cert to one that never came, or both roots linked |
| Undisturbed.LaunchFailsExactly | internal/service/carollover.go:229-262 | when a start goes through, fails or dies |
| Controller.Orchestrator.RootStragglers | internal/service/carollover.go:411-439 | two loops over certs and nodes compute the stragglers in list order |
| Controller.Orchestrator.AdvanceRollover | internal/service/carollover.go:273-306 | the tick's advance: announce, push, and finish only when no straggler is left |
| Controller.Orchestrator.DropOldRoot | internal/service/carollover.go:325-357 | the old root leaves disk, then the trust list, then the row, with a failure or death between any two |
| Controller.Orchestrator.FinishRollover | internal/service/carollover.go:131-178 | a forced finish marks and revokes each straggler in turn and then drops the old root |
| Undisturbed.ForceEndsRollover | internal/service/carollover.go:131-178 | over runs: an undisturbed forced finish leaves one root on disk, in memory and in the row; exactly the workers left on another root need a rejoin and exactly their certs are revoked |
| Undisturbed.ForceHeldBack | internal/service/carollover.go:145-168 | one that cannot mark a worker left behind keeps both roots |
| Controller.Orchestrator.RootRolloverTick | internal/service/carollover.go:184-205 | the daily check: mend, advance a running rollover, or start one in the last year |
| Undisturbed.TickStartsRollover | internal/service/carollover.go:184-205 | over runs: with one root on disk an undisturbed check brings in the next one exactly when under 365 days are left, keeps the old one as long as a worker has a live cert, and otherwise does no more than a mend |
| Undisturbed.TickEndsRollover | internal/service/carollover.go:273-306 | over runs: with two roots on disk it drops the old one exactly when no confirmed worker's live cert is from another root or younger than six hours |
| Undisturbed.AdvanceHeldBack | internal/service/carollover.go:280-306 | an advance that cannot announce the new root, write its audit or read the nodes drops nothing |
| Undisturbed.NothingWithoutMend | internal/service/carollover.go:184-205 | nothing is started, advanced or finished over a mend that failed |
| Controller.Orchestrator.BreakGlassNow | internal/service/breakglass.go:54-204 | one new root alone, every joined worker cut off and its certs revoked, or refused inside the gap; and what a failure or death at any step before leaves |
| Undisturbed.BreakGlassEnds | internal/service/breakglass.go:73-182 | exactly which nodes stay, go or need a rejoin, which certs die, and when it is refused: within ten minutes of the last |
| Undisturbed.BreakGlassStepByStep | internal/service/breakglass.go:69-182 | the same for the steps: undisturbed they give that, and are refused for no other reason |
| Undisturbed.StampKept | internal/service/carollover.go:248-251 | no other event forgets when break glass last ran |
| Controller.Orchestrator.RenewTunnel | internal/service/certrenew.go:30-99 | an ask over the tunnel with any cert is answered with a fresh cert of the signing root exactly when that cert is accepted, not revoked and due, its node confirmed and the row saved |
| Undisturbed.AnsweredExactly | internal/service/certrenew.go:30-66 | which asks are answered, in the fields of cert, roots, rows and nodes, both ways |
| Undisturbed.RenewedInLastThird | internal/service/certrenew.go:30-66 | over runs: with one root a confirmed worker's ask is answered exactly in the last third of its cert's window, with a cert for 90 days |
| Cluster.ReconcilePaper | internal/service/carollover.go:367-405 | a mend keeps disk, row and memory consistent whatever fails, and an undisturbed one leaves them clean |
| Cluster.FinishPaper | internal/service/carollover.go:311-357 | dropping the old root keeps them consistent at every failure point |
| Cluster.AdvanceKeeps | internal/service/carollover.go:273-306 | a finish that found no straggler leaves every confirmed worker with a trusted cert |
| Cluster.CutOffMoves | internal/service/carollover.go:145-168 | after the forced cut every confirmed worker left is on the current root |
| Cluster.ForceKeeps | internal/service/carollover.go:131-178 | a forced finish keeps the whole invariant, wherever it stops |
| Cluster.BreakGlassKeeps | internal/service/breakglass.go:124-182 | breaking glass keeps the whole invariant |
| Cluster.RunAgainFinishes | internal/service/breakglass.go:83-111 | one that stopped anywhere and is run again, restarted or not, gives what it would have given had it never been tried |
| Runs.InvKeeps | internal/service/carollover.go:184-405 | every event, with any faults, keeps the invariant of disk, row, memory, certs and nodes |
| Runs.TrustSafety | internal/service/carollover.go:273-306 | at every moment of every run the newest live, unexpired cert of every confirmed worker is from a trusted root, and at most two roots are trusted |
| Runs.CrashRecovery | internal/service/carollover.go:367-405 | after any run, a restart and an undisturbed mend leave a rollover recorded exactly when another previous root is on disk, with the files' fingerprints, and memory trusting exactly the roots on disk |
| Runs.NeverToItself | internal/service/carollover.go:216-267 | no run records a rollover from a root to itself, and two roots on disk are always linked by the cross cert between them |
| ClockStep.StartAfterMend | internal/service/carollover.go:367-405 | what a start does with two roots on disk that the row does not know of: refused exactly when the clock has passed the last finish, and otherwise it drops the previous root |
| ClockStep.OldCertsSurvive | internal/service/carollover.go:216-267 | the previous root stays trusted through a start exactly when the clock has passed the last finish |
| ClockStep.SetBackClockCutsOff | internal/service/carollover.go:216-267 | a clock set back, and a start after which a confirmed worker's live cert is from an untrusted root |
| Settle.StrandedWasSilent | internal/service/carollover.go:42-46 | a worker that an automatic finish leaves on the old root was answered by the current one and then had no ask answered for a whole settle window |
| Settle.PassedOverExactly | internal/service/carollover.go:411-439 | exactly which workers on another root hold up no finish: those the current root answered once and that had no answer within the settle window |
| Settle.NobodyStranded | internal/service/carollover.go:273-306 | a worker that keeps asking a running controller with its live cert from the old root, at least once in every settle window, is on the new root when a rollover ends by itself, however many answers are lost |
| Settle.AnsweredIsNotStranded | internal/service/carollover.go:42-46 | nor is a worker stranded that had any ask answered within the window |
| Settle.AtOnceStrandsNobody | internal/service/carollover.go:184-205 | a tick that starts a rollover and ends it at once leaves no worker on another root |
| Settle.OldRootAsksAreAnswered | internal/service/certrenew.go:38-66 | while two roots are on disk a running controller answers every confirmed worker on the old root, with a cert of the new one |
| Settle.RotatedIsYounger | internal/service/carollover.go:216-267 | during a rollover every cert of the new root was made no earlier than the event that brought that root in |
| Outage.AskingIsNotEnough | internal/service/carollover.go:42-46 | a run in which a worker asks every hour and is stranded all the same |
| Mesh.LessTotal | internal/mesh/mesh.go:238 | of two different ids exactly one is before the other, and none before itself |
| Mesh.LessTransitive | internal/mesh/mesh.go:238 | before is transitive, so with that a strict total order |
| Mesh.LessAtFirstDifference | internal/mesh/mesh.go:238 | the first character that differs decides, and a text comes before what it begins |
| Mesh.OrderedSorted | internal/mesh/mesh.go:230-239 | the visiting order is a sorted rearrangement: public nodes first, then lower ids |
| Mesh.Search | internal/mesh/mesh.go:242-254 | the breadth-first search gives each node it reaches its true shortest walk length, and reaches every connected node |
| Mesh.PickHop | internal/mesh/mesh.go:255-266 | the hop chosen is the public-first, lowest-id neighbour exactly one hop closer |
| Mesh.Routes | internal/mesh/mesh.go:229-269 | an entry exists exactly for connected, distinct, non-adjacent pairs, and it is that hop: of the neighbours one hop closer a public one first, then the lowest id |
| Mesh.RoutesUnique | internal/mesh/mesh.go:222-228 | that contract leaves only one table |
| Mesh.NextStopCloser | internal/mesh/mesh.go:222-228 | the next stop, direct or routed, is one hop closer over a working tunnel |
| Mesh.PairKeySymmetric | internal/mesh/mesh.go:272-277 | two pairs share a key exactly when they are the same unordered pair; the key is the pair with the lower id first |
| Peers.BuildPeers | internal/mesh/mesh.go:186-220 | the two loops build the specified list |
| Delivery.PeersHaveKeys | internal/mesh/mesh.go:193-213 | exactly the other nodes with a key and an address in 10.207.255.0/24 have an entry, and it carries that key |
| Delivery.PeersHaveNetworks | internal/mesh/mesh.go:196-213 | a node's networks and its own address are in its home entry |
| Delivery.EntriesInOrder | internal/mesh/mesh.go:193-213 | one entry per eligible node, in input order |
| Delivery.PeersKeepPrefixes | internal/mesh/mesh.go:186-220 | an entry holds exactly the prefixes of the nodes homed on it: none lost, none duplicated |
| Delivery.PeersNeverOverlap | internal/mesh/mesh.go:186-220 | nodes with disjoint prefixes give entries that share no address |
| Conservation.PrefixesConserved | internal/mesh/mesh.go:186-220 | all entries together hold every eligible node's networks and transit address exactly once, but for nodes whose hop is no peer |
| Delivery.OneEntryHolds | internal/mesh/mesh.go:186-220 | on each node exactly the next stop's entry holds a reachable node's address |
| Delivery.NoNodeTwice | internal/mesh/mesh.go:222-228 | forwarding visits no node twice |
| Delivery.Delivered | internal/mesh/mesh.go:186-269 | a packet for a reachable node's transit address, or for any address in its networks, arrives there in exactly the shortest number of hops |
| Delivery.NoOtherWay | internal/mesh/mesh.go:186-269 | any walk the forwarding rule makes is that path: there is one way only |
| Kernel.Host.ApplySteps | internal/exits/plan.go:33-43 | the loop runs the steps to the first real failure, skipping what a check finds done |
| Kernel.ApplyConcat | internal/exits/plan.go:33-43 | a plan in two parts is the first and, if that went through, the second |
| Subjects.BuildInstall | internal/exits/plan.go:206-246 | the loops build the clear and the adds |
| Subjects.InstallEffect | internal/exits/plan.go:217-246 | a success means exactly the subject's rules stand in its block, whatever was there and whatever delete was lost; nothing outside changes |
| Subjects.ClearMeans | internal/exits/plan.go:206-212 | clearing empties the block exactly when no delete of a rule in it was lost |
| BlockFaults.FailedInstall | internal/exits/plan.go:217-246 | a failed change leaves an empty block exactly when it lost no delete and its first add failed; without a lost delete never a whole one |
| BlockFaults.InstallStops | internal/exits/plan.go:205-246 | what a change leaves, finished or not: the new rules up to the add it stopped at, and from there on the rules whose deletes were lost |
| BlockFaults.FailedInstallWhole | internal/exits/plan.go:205-246 | exactly when a change fails and the block of some action is whole all the same, whatever deletes and adds were lost |
| BlockFaults.StaysWholeElsewhere | internal/exits/plan.go:205-246 | for a change to another action: every old rule after the first stands, and the first stands too or is put there |
| Traffic.SubjectTraffic | internal/exits/plan.go:214-246 | what main routes by more than its default goes there, all else by the exit's table or into the blackhole; where that table has no route the host's other rules decide |
| Traffic.ClearedTraffic | internal/exits/plan.go:205-212 | with the block empty only the host's other rules decide |
| Traffic.OthersUnaffected | internal/exits/plan.go:188-194 | packets of other sources fare as before |
| Traffic.KeepsOwn | internal/exits/plan.go:205-246 | a plan cut short anywhere leaves only the subject's own rules in its block |
| Ladder.Runner.Tick | internal/exits/ladder.go:120-184 | one pass: probes, streaks, the rung chosen, the rules applied and the report, all as specified |
| Ladder.Runner.Settle | internal/exits/ladder.go:126-165 | the probing loops choose the specified rung and update exactly the probed streaks |
| Ladder.ProbedOneMore | internal/exits/ladder.go:103-115 | probing the next rung extends the probed prefix by one |
| LadderRuns.MoreIsHistory | internal/exits/ladder.go:120-184 | every run of passes goes on with any answers, faults and kernel the next pass meets |
| LadderRuns.Hysteresis | internal/exits/ladder.go:126-165 | the live rung is left for a better one exactly when one has given its last RecoverAfter answers, and otherwise exactly when it failed its last FailAfter, all while live |
| LadderRuns.InConsecutivePasses | internal/exits/ladder.go:57-62 | while rule changes succeed those answers are consecutive passes |
| LadderRuns.RecoveredGapsExactly | internal/exits/ladder.go:57-62 | whatever failed, a recovered rung's last RecoverAfter answers are consecutive passes exactly when no pass since the first of them had a rule change that failed before the rung was asked |
| LadderRuns.GivenUpGapsExactly | internal/exits/ladder.go:57-62 | the same for the last FailAfter failures of the rung given up |
| LadderGap.RecoversAcrossGap | internal/exits/ladder.go:135-146 | a rung taken back on two answers with a pass between them that did not ask it |
| LadderRuns.LiveSpell | internal/exits/ladder.go:103-115 | the live rung's failure count covers only failures since it went live |
| LadderRuns.UpperSpell | internal/exits/ladder.go:139-146 | above the live rung a good streak is of answers since the rung last failed, with no gaps but passes whose rule change failed |
| LadderRuns.DownMeansNothingAnswers | internal/exits/ladder.go:128-165 | a pass ends Down exactly when every rung, each asked once in it, failed and none was live or the live one is given up; from Down the first answer is taken |
| LadderPicks.FallsTo | internal/exits/ladder.go:147-164 | a rung given up: the first below it that answers is taken, else the first above that answered, else none |
| LadderPicks.AsksExactly | internal/exits/ladder.go:126-153 | exactly which rungs a pass asks |
| LadderPicks.ReportIsTrue | internal/exits/ladder.go:174-196 | the report names the rung in use and since when, or is Down with every rung's error of the pass that went down |
| LadderPicks.SameRungSameRules | internal/exits/ladder.go:167-169 | a pass that settles on the rung reported touches no rule |
| LadderPicks.RefusedPass | internal/exits/plan.go:195-246 | which changes are refused outright, and that they change nothing |
| LadderRules.RulesAgree | internal/exits/ladder.go:167-212 | after a last change that went through, the rules are exactly those of the report |
| LadderRules.RulesAgreeExactly | internal/exits/ladder.go:117-119 | when report and rules agree after any last change, both ways, from what the change found and what was lost in it |
| LadderLeftovers.FailedYetAgrees | internal/exits/ladder.go:167-172 | a change that fails with an exit live and leaves that exit's block whole |
| LadderLeftovers.LeftoverOnOwnUplink | internal/exits/ladder.go:167-172 | a change to the own uplink that goes through and leaves a rule to the exit given up |
| LadderRules.AgreedTraffic | internal/exits/plan.go:188-246 | where a source's packets go in each reported state, an exit without a route included |
| LadderRules.OwnUplinkOnly | internal/exits/plan.go:188-246 | what main would default gets past the block to the host's own rules exactly when the own uplink is live or the live exit's table has no route |
| LadderRules.PassSparesOthers | internal/exits/plan.go:188-194 | a pass, finished or cut short, changes nothing for other sources |
| LadderRules.StaleAfterFailure | internal/exits/ladder.go:167-172 | three passes after which the report is wrong and no error is given |
| ExitPath.LeavesByLiveExit | internal/exits/plan.go:145-246 | link and ladder together: what main would send by its default leaves by the live exit's interface |
| ExitPath.UpCutShort | internal/exits/plan.go:145-161 | an Up that cannot add its link has deleted the link and its routes |
| ExitPath.RepeatedUpLosesExit | internal/exits/plan.go:145-246 | after that a live exit's sources meet the host's own rules, with report and rules still in agreement |
| ExitPath.LeaksAfterRepeatedUp | internal/exits/plan.go:145-246 | a host on which such packets then leave by its own uplink |
| RuleLists.OncesEffect | internal/exits/plan.go:67-75 | adding once gains each rule at most once and moves nothing else |
| RuleLists.UpThenDown | internal/exits/plan.go:67-75 | adding once and deleting gives the chains back exactly when none of the rules stood before |
| Links.BuildLinkUp | internal/exits/plan.go:145-170 | the builder's errors in order, and its steps |
| Links.BuildLinkDown | internal/exits/plan.go:174-186 | the way down deletes just the rules the way up adds |
| Links.UpAgainChangesNothing | internal/exits/plan.go:140-144 | a second Up, finished or not, changes no rule list |
| Links.DownUndoesUp | internal/exits/plan.go:172-186 | Down after Up gives back every chain exactly when none of the link's rules stood before |
| Links.DefaultThroughLink | internal/exits/plan.go:155-161 | a link that is up carries every address its table is asked for |
| LinkTraffic.RepliesAccepted | internal/exits/plan.go:166-168 | after any sequence of links up and down, with any failures, a reply a live link brings for one of its sources is accepted in the raw table |
| LinkTraffic.OthersLeftAlone | internal/exits/plan.go:166-168 | and a packet for none of the raised links' sources is left to the rules that follow |
| LinkTraffic.NotTranslated | internal/exits/plan.go:161 | what leaves by a live link keeps its source address, and other interfaces are left alone |
| LinkTraffic.NewLinkIsFirst | internal/exits/plan.go:161-168 | a link that comes up new is accepted first in both chains, over whatever rules stand there |
| LinkTraffic.LiveLinkTraffic | internal/exits/plan.go:161-168 | a live link's verdicts in all three chains, by their names |
| LinkTraffic.UpNeedsTheLink | internal/exits/plan.go:153-160 | an Up whose link cannot be added, set up or given its route fails |
| Hooks.LinkIsGone | internal/exits/plan.go:172-186 | after Down the interface, its routes and its table are gone |
| Gate.OrderedVerdict | internal/exits/plan.go:162-164 | what a gate of link rules in order does to any packet |
| Gate.LiveExitGuarded | internal/exits/plan.go:140-186 | after any sequence of links up and down, with any failures, a live exit's established traffic passes and the rest is dropped |
| Gate.GoneExitUntouched | internal/exits/plan.go:172-186 | an interface whose link is gone is left alone |
| Refill.UpConverges | internal/exits/plan.go:309-314 | a plan with chains of its own ends with exactly its rules in them, whatever stood there, and hooked in |
| Refill.DownUndoesUp | internal/exits/plan.go:373-390 | when taking such a plan down gives back every chain, both ways |
| Fence.BuildFenceUp | internal/exits/plan.go:408-424 | the nested loops build the plan |
| Fence.FenceGuards | internal/exits/plan.go:392-424 | a packet is dropped exactly when it is no reply of a published port, comes from a listed source, is for no refused range and leaves by the uplink |
| Hooks.FencedFirst | internal/exits/plan.go:408-424 | from DOCKER-USER on, after the first Up and every later one: the fence comes first and drops exactly that, and the rest meets the host's own rules |
| Hooks.RefusedRanges | internal/exits/plan.go:45-47 | the refused ranges in numbers |
| Fence.FenceConverges | internal/exits/plan.go:407 | a new list over an old one leaves what the new one alone would, whatever is lost in any of the three plans |
| Fence.FenceUndone | internal/exits/plan.go:426-433 | when Down gives back the chains, both ways |
| Serve.BuildServeUp | internal/exits/plan.go:315-371 | the builder's errors and steps, loops included |
| Serve.ServeGuards | internal/exits/plan.go:349-355 | what the forward chain passes, drops and leaves to the rules that follow |
| Hooks.ServedFirst | internal/exits/plan.go:349-358 | from DOCKER-USER on: what the link's chain accepts and drops there before the host's own rules |
| Hooks.MasqueradedFirst | internal/exits/plan.go:346-348 | from POSTROUTING on: exactly the assigned subnets on their way out are masqueraded |
| Hooks.MarkedFromTheStart | internal/exits/plan.go:343-345 | from PREROUTING on: which packets carry the link's mark |
| Hooks.FlowReturnsFromPrerouting | internal/exits/plan.go:309-314 | where the host's own mangle rules leave the marks alone, a client's later packets go back into the link |
| Hooks.ServeNeedsTheLink | internal/exits/plan.go:331-337 | an Up whose link cannot be added or set up fails |
| Hooks.ServeIsGone | internal/exits/plan.go:373-390 | after Down the mark rule, the interface, its routes and its table are gone |
| Serve.NatOnlyAssigned | internal/exits/plan.go:346-348 | masquerading hits exactly the assigned subnets on their way out |
| Serve.ServeConverges | internal/exits/plan.go:309-314 | the same chains from any two starting points |
| Serve.ServeUndone | internal/exits/plan.go:373-390 | when Down gives back the chains, both ways |
| Serve.RepliesReturn | internal/exits/plan.go:312-314 | packets with the link's mark for an assigned subnet go back into the link |
| Serve.FlowMarked | internal/exits/plan.go:343-345 | the mark chain marks exactly the link's new flows and every packet of a flow so marked |
| Serve.FlowReturns | internal/exits/plan.go:309-314 | a flow opened from the link: its later packets for an assigned subnet are marked by the link's chain and go back into the link |
| HostInput.HostReached | internal/exits/plan.go:359-363 | what INPUT does with a client's packet on any host, its own rules followed through their jumps to any depth: an echo request passes where the accept was put in front, else the rules that stood there decide, and what they leave open is dropped |
| HostInput.HostReachedAgain | internal/exits/plan.go:309-314 | a later Up of the link leaves INPUT as the first did, and the host's own rules decide as then |
| HostInput.HostAsBefore | internal/exits/plan.go:349-363 | where the host's own rules jump to no chain the serve changes, they decide as before it |
| HostInput.ComesUpExactly | internal/exits/plan.go:315-371 | with no outside failure a sound serve comes up exactly on a host that has the built-in chains, whatever else stands there |
| HostInput.OpenHostIsReached | internal/exits/plan.go:359-363 | a host whose own rules let in every packet of a client |
| Purge.OwnedRule | cmd/stackr-install/uninstall.go:539-562 | the scan finds a rule owned exactly when some flag and its value say so |
| Purge.TrimMeans | cmd/stackr-install/uninstall.go:548 | a value is read without the quotes at its ends |
| Purge.IptablesPurge | cmd/stackr-install/uninstall.go:492-535 | the line loop writes the specified script |
| PurgeProofs.DeletesPluck | cmd/stackr-install/uninstall.go:527-531 | deleting "the first equal rule" line by line removes exactly the owned rules, duplicates included |
| PurgeProofs.SectionEdits | cmd/stackr-install/uninstall.go:496-512 | a table's section fails at no line |
| Uninstall.PurgeIsExact | cmd/stackr-install/uninstall.go:486-535 | for every dump a kernel could print, restoring the script never fails and leaves exactly what is not stackr's |
| Uninstall.PurgedMeans | cmd/stackr-install/uninstall.go:486-491 | what is left: no owned chain or rule, every other chain, policy and rule in order and as often |
| Uninstall.ScriptOnlyIfNeeded | cmd/stackr-install/uninstall.go:491-499 | the script is empty exactly when nothing is stackr's |
| Uninstall.WordsAgainstArguments | cmd/stackr-install/uninstall.go:537-562 | no rule of stackr's escapes the word test, and the test is right about a rule exactly when the rule is stackr's or no word joined to another by a quoted blank takes part in a match; escaped quotes included |
| Uninstall.ChainPurgedRightly | cmd/stackr-install/uninstall.go:486-535 | a chain loses exactly stackr's rules when and only when that holds of each of its rules |
| Uninstall.QuotedBlankOverDeletes | cmd/stackr-install/uninstall.go:540-562 | a rule that only mentions a stackr chain in its comment is taken for stackr's |
| Uninstall.EscapedQuoteOverDeletes | cmd/stackr-install/uninstall.go:540-562 | the same with a quote in the comment |
| Uninstall.HarmlessIsKept | cmd/stackr-install/uninstall.go:540-562 | a quoted comment of plain words, whose rule is kept |
| Swap.HostSwap.CopyExec | cmd/stackrd/hosthelper.go:153-175 | the copy, with what it leaves when each of its steps fails |
| Swap.HostSwap.RunSwap | cmd/stackrd/hosthelper.go:59-132 | stage, keep, mark, swap, restart, wait and roll back as specified, every disk on the way recorded |
| Swap.HostSwap.PutOldBack | cmd/stackrd/hosthelper.go:136-150 | the rollback, in any order of names, going on past a rename that fails |
| Swap.HostSwap.RestoreStaleSwap | internal/worker/worker.go:296-311 | a swap not pending, or whose deadline is not thirty seconds past, is left alone; else every old file that can be renamed is back, and with all of them the marker goes |
| SwapCrash.RecoversByDeadline | internal/worker/worker.go:296-311 | the same of the recovery the crash theorems use |
| SwapCrash.RetryRecovers | internal/worker/worker.go:296-311 | a recovery that failed anywhere and is tried again ends like an undisturbed one |
| SwapProofs.SwapEnds | cmd/stackrd/hosthelper.go:59-150 | success means all new; failure means old but for a name swapped without having been kept or whose rename back failed; after every file operation each name holds a whole old or new file |
| SwapProofs.UnkeptHadBadStat | cmd/stackrd/hosthelper.go:74-85 | such a name is one whose stat failed |
| SwapInputs.ReachesExactly | cmd/stackrd/hosthelper.go:59-96 | which names a swap renames, from the operations that fail |
| SwapInputs.SucceedsExactly | cmd/stackrd/hosthelper.go:59-132 | when a swap succeeds: everything up to the wait works, and a commit comes and is seen |
| SwapInputs.AnyOfTheseFails | cmd/stackrd/hosthelper.go:59-150 | any of the copies, the mark, the renames, the restart or the commit going wrong fails the swap |
| SwapInputs.SweepsUp | cmd/stackrd/hosthelper.go:136-150 | success leaves the commit's marker; failure leaves no staged file and no marker of its own |
| SwapInputs.WaitsWithItsDeadline | cmd/stackrd/hosthelper.go:86-101 | whatever marker a crash can leave, a pending one has the swap's own deadline, and under it the new files wait |
| SwapInputs.FailureKeepsOld | cmd/stackrd/hosthelper.go:54-58 | a failed swap leaves all old files exactly when each existing name whose stat or rename back fails, and that the renames get to, has the same content in the new file |
| SwapInputs.RestorableKeepsOld | cmd/stackrd/hosthelper.go:54-58 | so where every existing name can be statted and put back every failed swap leaves all old files |
| SwapCrash.CrashNeverMixes | cmd/stackrd/hosthelper.go:51-58 | for every crash point: after the worker's recovery old and new are not mixed, exactly when no commit of two changed names came that the helper could not read |
| SwapCrash.MissedCommitMixes | cmd/stackrd/hosthelper.go:123-132 | a swap with such a commit, and a crash that mixes |
| SwapCrash.SafeStartExactly | cmd/stackrd/hosthelper.go:70-91 | from a disk with a binary on it every swap survives every crash exactly when no swap is pending there |
| SwapInputs.BadStatLosesOld | cmd/stackrd/hosthelper.go:74-141 | two failed swaps that leave a new file: one for a stat that failed, one for a rename back |
| Glob.GlobMatch | cmd/stackr/node.go:898-915 | the greedy match is true exactly when the pattern matches |
| Glob.SplitKeepsMeaning | cmd/stackr/node.go:899-902 | splitting at the stars keeps the meaning |
| Glob.FitsIsACut | cmd/stackr/node.go:897 | a match is a cut of the text with some string for each star |
| Glob.LeftmostWillDo | cmd/stackr/node.go:907-913 | if any cut works, one with the leftmost next piece does |
| EditDistance.Distance | cmd/stackr/app.go:654-673 | two rows compute the recurrence's distance |
| EditDistance.LevIsFewest | cmd/stackr/app.go:653 | that distance is the length of a shortest insert, delete and replace script |
| EditDistance.LevSymmetric | cmd/stackr/app.go:653 | it is symmetric |
| EditDistance.LevTriangle | cmd/stackr/app.go:653 | it obeys the triangle inequality |
| EditDistance.Closest | cmd/stackr/app.go:643-651 | the first of the nearest names within two edits, or none |
| PlanFilter.FirstLine | cmd/stackr/follow.go:70-79 | a whole line at the front is kept or dropped on its own |
| PlanFilter.LinesAreTheLog | cmd/stackr/follow.go:60-61 | the lines are the whole log in order |
| PlanFilter.Filter.Write | cmd/stackr/follow.go:67-81 | nothing is lost or reordered, even when the sink fails, in the middle of a line or between two; only whole lines are taken off the buffer |
| PlanFilter.Filter.Flush | cmd/stackr/follow.go:83-88 | what is held back goes out as it is unless it starts as a plan line, and the buffer is empty |
| PlanFilter.Follow | cmd/stackr/follow.go:60-88 | for every way of cutting the log into writes the output is the log without its plan lines, or a front part of that if the sink failed |

## Left out

- X.509, TLS, HMAC and hashing: certs are records, and a fingerprint names one root.
- Signing requests, sockets, the push transport and the controller's own cert: a push or announcement either fails or does not, and changes nothing a proof relies on.
- Torn key and cert pairs inside `SaveCA`: it is one step, as the code states this as a known limit.
- Concurrency: the operations that hold the rollover lock are atomic events; renewals interleave between them, not inside them.
- Renewal over the recovery endpoint (`RenewNodeCert`, `certExpired`): only the tunnel's ask is an event.
- Controller.Orchestrator.BreakGlassNow: the wait for trust pushes, the audit rows, the join requests it rejects and the controller's own mesh key are not modelled.
- Runs.TrustSafety: in runs break glass is refused or goes through; one that stops after its key files were saved cuts the workers off until it is run again, as its comments say (`Cluster.RunAgainFinishes`).
- Settle.NobodyStranded: is about asks of a running controller, because `Outage.AskingIsNotEnough` shows that asks nobody hears do not suffice.
- Mesh.Routes: `up` must be symmetric and the ids distinct and not empty, as the callers provide; ids are compared character by character.
- Peers.BuildPeers: an entry's endpoint candidates (`Candidates`, `SameLAN`, `UsableEndpoint`) are left out, short scans with easy members, as is `AllocTransit`.
- Ladder.Runner.Tick: the pinger's answers for a pass are an input, the change callback and the state lock are left out, and the reason is kept as the list of rung and error instead of one text.
- `ip rule`: a priority holds at most one rule, where the kernel refuses only an equal one (`Subjects.InstallEffect` and `BlockFaults` rest on it when a delete is lost); a packet's route lookup is the longest prefix of one table; IPv4 only, as the code.
- Kernel.ChainVerdict: reads one chain whose rules do not jump; `Kernel.EndIn` follows jumps, to any depth given, where a host's own rules matter.
- A plan's faults are a set of commands: of two equal commands in one plan, as for a subnet listed twice, both fail or neither does.
- Serve.FlowReturns: the host's own mangle rules, which could change marks before or after the link's chain, are not followed.
- WireGuard settings, addresses and MTU are steps that need the interface and change nothing else.
- `exits.Resolve`, interface names from hashes, port parsing: a parsed value or its absence is an input.
- Purge.IptablesPurge: a line is its list of blank-separated words, and a rule in the kernel is the words it prints as; counters and the text layout are not modelled.
- Swap.HostSwap.RunSwap: the wait is one step in which the commit comes or does not. A rename of `.prev` over a name it is still a hard link to does nothing and leaves `.prev` there; the model removes it, which changes no name's content.
- SwapCrash.CrashNeverMixes: starts with no swap pending, and every existing name can be statted and put back; `SwapCrash.SafeStartExactly` and `SwapInputs.BadStatLosesOld` show why.
- PlanFilter.Filter.Write: a sink that has failed once stays failed.
- Glob.GlobMatch, EditDistance.Distance: strings are characters; the byte and rune views of Go agree on them.
- Cobra commands, prompts, templates, the HTTP stack, the route table, container specs and printing: plumbing.
