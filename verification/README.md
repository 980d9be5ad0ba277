# Zero-downtime traffic, ingress and allocation: a Dafny model

This project models the parts of the command line tool that move live traffic, and the small stateful
algorithms around them, and proves what their comments and documentation promise: over every input,
every answer of the cluster, a failure at every call, and whole histories of commands.

A command is a function from its inputs and from every answer the outside gives it (a *world*) to a
*run*: the log of the calls that took effect and how the command ended. A statement over all worlds
therefore covers a failure at every call and readiness that changes between calls. The commands that
change objects step by step are also written as classes whose methods are proved to perform exactly
those runs, and which promise of their own fields and of the calls they made what is proved about runs.

| file | what it models |
|---|---|
| `Routing.dfy` | the hops of a request (edge, route object, server block, Service, colour) and the single steps that change them |
| `Promotion.dfy` | `switchTraffic` and the apply half of the deploy `callback` as runs |
| `TrafficCommands.dfy` | the same commands as methods of a cluster object |
| `Completion.dfy` | how every command ends and the state it leaves, call by call and for every answer |
| `SingleFlip.dfy`, `Migration.dfy` | phase by phase: when all paths of a deploy stay on one colour, and when no host loses its route while it moves between the two stacks |
| `FirstState.dfy` | both for a whole promotion, exactly, as conditions over the state it finds and the answers it gets |
| `UnservedStack.dfy` | where a completed promotion leaves each path |
| `WholeSwitch.dfy` | one colour over `switchTraffic` and the routing half of a deploy, whatever the read of the live colour says |
| `ColourSafety.dfy`, `DefaultDeploy.dfy` | gating, reversibility, and what histories of deploys and switches leave standing |
| `SelectorHistory.dfy` | which colour the selector names, and which workloads stand, after histories and interleavings of any number of deploys and switches |
| `EdgeReload.dfy` | the hot reload of the shared edge as a transaction |
| `NodePorts.dfy`, `HostPortPatch.dfy` | ownership of ports 80 and 443, and the JSON Patch that releases them |
| `EventSuspension.dfy` | suspend and resume with a recovery file, under crashes |
| `Cooldown.dfy`, `CooldownKey.dfy`, `SortedStrings.dfy` | the webhook's cooldown over any trace of deliveries, and its key |
| `PortAllocator.dfy` | the slots of `--sync-env-port` |
| `FileSweep.dfy`, `Inventory.dfy` | mark and sweep of File documents, and the restore comparison |
| `NfsMount.dfy` | the bounded unmount recursion |
| `Listeners.dfy`, `Duration.dfy` | Gateway listener names and policy targets, and timeouts as Gateway API durations |

`dafny verify dfyconfig.toml` checks the whole project. Every lemma turns automatic induction off: where
a proof is by induction, the induction is written out.

## Where the code and its promises part

Each of these is a lemma with a concrete input, an exact condition, or both.

- A server block is replaced before its route. A path that the old route sends to the shared gateway
  and the new block no longer intercepts answers nothing in between
  (`SingleFlip.DroppedInterceptionGoesDark`, exact in `SingleFlip.InstallKeepsPathsExactly`). A path the deploy
  no longer has is dropped from the block in the same way while the old route still sends it to the gateway
  (exact in `Migration.PromoteBacked`).
- The deployment of the shared edge and the live colour are read through commands that fail silently. When
  the edge is not seen, it is not rebuilt: the switch reports success, and a root behind the stable Service
  is on the new colour while its API on a legacy Service is on the old one
  (`UnservedStack.UnseenEdgeSplitsRootFromApi`, exact in `UnservedStack.CompletedPromotionExactly`). When the
  live colour is not seen, or a left-over route object names another one, the first write of the run is
  already a flip, before any route is published (exact in `WholeSwitch.MisreadPromoteAlong`); a switch to the
  colour that serves then takes its paths to the other colour and back (`WholeSwitch.MisreadSwitchDetours`).
- A refresh of the edge can report success without having loaded the new table, a route list that fails reads
  as empty, and Envoy Gateway can be installed with no data plane Service. In each case the old route is
  deleted all the same and the host has no answer (`Migration.UnloadedRefreshUnroutesHost`,
  `Migration.FailedListUnroutesHost`, `Migration.UnprovisionedGatewayUnroutesHost`, exact in
  `Migration.MigratedHostReachesExactly` and, for every state of a run, `FirstState.PromoteNeverUnroutes`).
  Deletes also cover hosts for which no rule was rendered (`Migration.RoutedAfterMigrationExactly`).
- With workload updates disabled the readiness check is skipped and the selector write is not
  (`DefaultDeploy.DeployGatedExactly`).
- The live colour is read through a command that fails silently. A failed read makes a default deploy
  delete blue even when blue serves; a stale read makes it delete a colour promoted since
  (`DefaultDeploy.FailedReadDeletesBlue`, `DefaultDeploy.StaleReadDeletesPromoted`, exact in
  `DefaultDeploy.LiveDroppedExactly`, over histories in `DefaultDeploy.ServingColourStandsExactly` and over
  interleavings in `SelectorHistory.InterleavedStands`).
- A default deploy moves the selector when it does not see the live colour ready
  (`SelectorHistory.DefaultDeployMovesExactly`), and one that writes after a concurrent switch takes the
  selector back (`SelectorHistory.StaleDeployTakesBack`, exact for any number of commands in
  `SelectorHistory.InterleavedSelector`).
- The edge manifest is two documents, so a failed apply may have replaced the ConfigMap
  (`EdgeReload.FailureRestoresBothExactly`); a lost clean-up lets a later roll-back resurrect an older
  table (`EdgeReload.LostCleanupResurrectsOldTable`, exact in `EdgeReload.RollbackRestoresExactly`).
- An exception between Contour's manifest and the release of its ports leaves two owners
  (`NodePorts.ContourBesideEdgeExactly`); so can a presence read that fails or a release that does not take
  hold (`NodePorts.MisreadPresenceSplitsPorts`, exact in `NodePorts.PortsHaveOneOwner`).
- `suspendEvents` accepts a namespace that `resumeEvents` refuses (`EventSuspension.ResumableExactly`).
- The cooldown key names resolved subjects too, so a subject that fires all along is remediated again
  within its cooldown when another one of its group has resolved
  (`Cooldown.ResolvedSubjectBreaksTheCooldown`, exact in `Cooldown.RepeatedExactly`). The comment at
  `src/cli/event.js:170` promises a cooldown per subject.
- An authorised delivery whose body is the JSON text `null` parses, and then throws before any reply
  (`Cooldown.Dispatcher.Deliver`).
- A deploy with only some of its env files shares the PORT of the next one
  (`PortAllocator.SkippedSharesWithNext`), and a deploy whose block begins with a single replica shares
  the PORT of that replica (`PortAllocator.ParentSharesExactly`).
- A null in a list of file references, or an array of sub-documents on the way, makes the sweep delete
  Files that are in use (`FileSweep.NullEntryLosesTheRest`, `FileSweep.ArrayOfDocumentsIsMissed`, exact
  in `FileSweep.SurvivesExactly`).
- An unmount that needs exactly one pass more than its bound throws with nothing left mounted
  (`NfsMount.FailuresAreProgress`).
- The HTTP/3 policy targets a listener that does not exist when a host is the empty string
  (`Listeners.PolicyTargetsExactly`).
- The comment at `src/cli/deploy.js:174-175` renders `10000ms` as `5m`; the code renders `10s`
  (`Duration.TenSeconds`).
- `releaseHostPortClaim` is documented to return true when the claim is gone afterwards; with nothing to
  release it returns false (`HostPortPatch.DaemonSet.ReleaseHostPortClaim`).

## Model

| member | source | states |
|---|---|---|
| `TrafficCommands.Cluster.ApplyTrafficService` | src/cli/deploy.js:272-289 | the stable Service is the only object written and its selector names the given colour |
| `TrafficCommands.Cluster.InstallGatewayConf` | src/server/network/underpost-gateway.js:733-785 | the built blocks replace those of the same hosts, the others stay; a rejected set changes nothing |
| `TrafficCommands.Cluster.ApplyRouteFiles` | src/cli/deploy.js:2780-2782 | a refused `gateway.yaml`, or an empty `proxy.yaml` handed over by a deploy, stops it with nothing changed; otherwise every accepted document is live, a rejected one does not stop the others, and it ends normally exactly when none was rejected |
| `TrafficCommands.Cluster.RefreshUnderpostIngress` | src/cli/cluster.js:1319-1590 | reports true exactly when a data plane was found and every wait passed, whether or not the edge loaded the table; when it did, that is the table of the live routes; a table swapped in and put back when the swap or the manifest is refused is a state of its own before it throws |
| `TrafficCommands.Cluster.RemoveInactiveHostRoutes` | src/cli/deploy.js:350-354 | exactly the other kind's objects of the named hosts are deleted, in order, up to the first call that throws |
| `TrafficCommands.Cluster.MigrateHosts` | src/cli/deploy.js:2788-2797 | the old routes are removed after any first refresh that reports true, loaded or not, and the second refresh follows; the status and the state it leaves for every answer |
| `TrafficCommands.Cluster.Flip` | src/cli/deploy.js:2799-2818 | one selector write, and a second one taking it back when the endpoints never come; the status and the selector it leaves for every answer |
| `TrafficCommands.Cluster.Promote` | src/cli/deploy.js:2602-2667 | the phases in their order, with the status and the whole state left for every answer (`Completion.PromotionLeaves`); workloads, gRPC and record stay; the hosts keep an answer in every state exactly under the condition of `FirstState.PromoteNeverUnroutes` |
| `TrafficCommands.Cluster.SwitchTraffic` | src/cli/deploy.js:2704-2824 | the run of `switchTraffic`, with the status and the whole state left for every answer; a refused `gateway.yaml` leaves both stacks and the edge as they were and the command failed; on normal end selector, record and gRPC name the target, otherwise the record stays; the calls it made keep all paths on one colour exactly when the answers carry it, whatever it read |
| `TrafficCommands.Cluster.DropVersions` | src/cli/deploy.js:2523-2530 | Service then Deployment of every version, up to the call that throws; which ones are gone then |
| `TrafficCommands.Cluster.DeployWorkload` | src/cli/deploy.js:2514-2682 | the run of a deploy, with the status and the whole state left for every answer and every request; one that routes with explicit traffic and completes has moved to it; a default one leaves the selector on what it desired if it wrote it and untouched otherwise, and the serving colour stands in every state exactly when the deploy does not delete it and writes only a colour that stands |
| `TrafficCommands.Cluster.RouteWorkload` | src/cli/deploy.js:2575-2667 | refusal of an unready colour, then the promotion, with the status and the whole state left; on normal end the selector is the traffic asked for, without one the colour seen live and ready, else the first version; all paths stay on one colour exactly when the answers carry it, whatever it read |
| `Completion.PromotionEndsExactly` | src/cli/deploy.js:2597-2667 | for every answer: how a promotion ends and every object it leaves, the first refused call deciding |
| `Completion.SwitchEndsExactly` | src/cli/deploy.js:2704-2824 | the same for the whole of `switchTraffic`, refusals included |
| `Completion.DeployEndsExactly` | src/cli/deploy.js:2514-2682 | the same for the apply of a deploy, whatever versions and traffic were asked for |
| `Completion.RefusedGatewayStops` | src/cli/deploy.js:2623-2627 | a refused `gateway.yaml` fails the promotion before any route object or the edge is touched, the selector at most on its first write |
| `Completion.ApplyEnds` | src/cli/deploy.js:2780-2782 | the apply step ends normally exactly when `gateway.yaml` and every document with a rule were accepted; with none, unless a deploy hands over an empty `proxy.yaml` |
| `Completion.RoutedColourExactly` | src/cli/deploy.js:2587-2591 | a routing that completes leaves the selector on the explicit traffic; without one on the colour seen live and ready, failing that on the first version |
| `Completion.CompletedDeployLeaves` | src/cli/deploy.js:2464-2563 | a completed deploy has the requested versions, or the traffic asked for, or the colour not live, replaced by the manifest's colours, and gRPC on the manifest's colour |
| `Completion.DropStepsEnd` | src/cli/deploy.js:2523-2530 | which Services and Deployments are gone after any number of delete calls |
| `FirstState.PromoteAlong` | src/cli/deploy.js:2597-2667 | from one colour: in every state between two calls, wherever the run fails, every path answers from one colour, the one the selector names, if and only if the answers carry it: a condition over the state before the run and the answers, clause by clause which stack each table of the edge hands a host to, where its old route leads, and whether the flip finds it behind the stable Service |
| `WholeSwitch.SwitchNeverSplits` | src/cli/deploy.js:2727-2823 | the same for the whole of `switchTraffic`, whether the read of the live colour answers right, wrong or not at all |
| `WholeSwitch.DeployRouteNeverSplits` | src/cli/deploy.js:2576-2667 | the same for the routing half of a deploy, whatever it read |
| `WholeSwitch.MisreadPromoteAlong` | src/cli/deploy.js:2735-2766 | a run that starts from another colour than the serving one flips with its first write: it never splits if and only if every path is behind the stable Service and the rest carries as on that colour |
| `WholeSwitch.MisreadSwitchDetours` | src/cli/deploy.js:2735-2818 | a switch to the serving colour that reads the other one as live and ready: exactly which paths its first write takes there, and the selector back at the end |
| `WholeSwitch.EdgeServesCarries` | src/cli/deploy.js:2774-2806 | when the rebuilds load the destination stack, or every path needs none, and a table put back is the one that ran, the answers carry |
| `WholeSwitch.SwitchEndsWhole` | src/cli/deploy.js:2704-2824 | where a switch leaves every path: exactly which ones a completed one moved, left behind or lost; back on the colour it started from after a promotion that carried and failed, unless a roll-back it needed was refused |
| `SingleFlip.MigratePhase` | src/cli/deploy.js:2788-2797 | refresh, removal and refresh keep every path on its colour if and only if each rebuild and the removal carry it |
| `SingleFlip.InstallKeepsPathsExactly` | src/cli/deploy.js:2613-2622 | replacing the server blocks keeps every path answering if and only if each path served through the shared gateway is still intercepted |
| `SingleFlip.DroppedInterceptionGoesDark` | src/cli/deploy.js:2613-2627 | for any host with two paths: one that stops being intercepted answers nothing between the block and its route |
| `SingleFlip.SelectMovesExactly` | src/cli/deploy.js:2799-2806 | one selector write moves every path if and only if all are carried by the stable Service; each other path stays |
| `SingleFlip.PublishRenders` | src/cli/deploy.js:2780-2782 | after the apply every accepted document is the live object and nothing else moved |
| `UnservedStack.PromotionBesideTheFront` | src/cli/deploy.js:2774-2806 | a completed promotion over an edge nobody rebuilt, or none, leaves the deploy on one colour if and only if every path was on the destination stack or behind the stable Service |
| `UnservedStack.CompletedPromotionExactly` | src/cli/deploy.js:2606-2667 | for any edge and any reads, the colour of every path after a completed promotion: target, old colour or none |
| `UnservedStack.UnseenEdgeSplitsRootFromApi` | src/cli/cluster.js:1319-1327 | a switch that does not see the edge reports success with the root on green and the API on blue |
| `UnservedStack.MigrationEnds` | src/cli/deploy.js:2788-2797 | a completed migration changes nothing when the edge was not rebuilt, and otherwise leaves no old object of any host |
| `UnservedStack.OnlyDestKeepsFront` | src/cli/deploy.js:2774-2782 | installing and publishing on one stack leave the other stack, the edge and the selector as they were, and a completed publish has every rendered object in place |
| `Migration.RebuildReachesExactly` | src/cli/cluster.js:1350-1395 | for every answer of the reads: after a rebuild a routed host is reachable if and only if its HTTPProxy was seen or the fallback stack has a route for it |
| `Migration.RebuildPrefersDestination` | src/server/network/underpost-ingress.js:86-94 | exactly for which answers the rebuild sends a host to the destination stack; always when both lists came back and the stack has a backend |
| `Migration.MigrationExact` | src/cli/deploy.js:2788-2797 | publish, rebuild, remove leaves a host reachable if and only if the rebuild sent it to the destination |
| `Migration.MigratedHostReachesExactly` | src/cli/deploy.js:2788-2797 | a completed migration leaves a published host reachable if and only if, by the last table the edge loaded, it is sent to the destination |
| `Migration.UnloadedRefreshUnroutesHost` | src/cli/cluster.js:1450-1508 | every read and wait passes but the readiness of the edge: success is reported and the host has no answer |
| `Migration.FailedListUnroutesHost` | src/cli/cluster.js:1351-1361 | the list of HTTPRoutes fails once: success is reported and the host has no answer |
| `Migration.UnprovisionedGatewayUnroutesHost` | src/cli/cluster.js:1365-1380 | no data plane Service yet: success is reported and the host has no answer |
| `FirstState.PromoteNeverUnroutes` | src/cli/deploy.js:2606-2667 | every host of any set that had an answer keeps one in every state of a promotion, wherever it fails, if and only if each table the edge comes to run hands it to a stack that has a route for it by then and no host loses its old route before it is handed to the new one: a condition over the state before the run and the answers |
| `Migration.MigrateReaches` | src/cli/deploy.js:2788-2797 | the same for refresh, removal and refresh alone |
| `Migration.SeeingRebuildsKeep` | src/cli/deploy.js:2788-2797 | rebuilds that see every route and load it, and roll-backs that keep them, keep every host whose new route was published |
| `Migration.RoutedAfterMigrationExactly` | src/cli/deploy.js:2634-2641 | a completed migration leaves a host of the deploy routed if and only if the run published it or the destination had it |
| `Migration.RemoveClears` | src/cli/deploy.js:350-354 | afterwards none of the named hosts has an object of the inactive kind and nothing else moved |
| `Migration.PromoteBacked` | src/cli/deploy.js:2613-2627 | in every state of a promotion, wherever it fails, each route that points at the shared gateway finds a server block for its path, if and only if no path an old route sends there is missing from the block that replaces its host's |
| `Migration.InstallBacked` | src/server/network/underpost-gateway.js:733-785 | a failed install leaves everything as it was; a completed one replaces exactly the blocks of the built hosts, has one ready for every path about to be published, and keeps the old routes backed exactly under that condition |
| `ColourSafety.SelectorIsLastSelect` | src/cli/deploy.js:272-289 | the selector after any log is the colour of its last selector write |
| `ColourSafety.PromoteSteps` | src/cli/deploy.js:2606-2667 | every selector write of a promotion names the bootstrap or the desired colour, and no step touches a workload, gRPC or the record |
| `ColourSafety.PromoteSelector` | src/cli/deploy.js:2643-2667 | where a promotion leaves the selector: desired on success, bootstrap after a failure, and exactly when not |
| `ColourSafety.SwitchIsGated` | src/cli/deploy.js:2727-2746 | a switch writes only colours it observed ready and touches no workload; an unready target writes nothing at all |
| `ColourSafety.SwitchOutcome` | src/cli/deploy.js:2727-2823 | on normal return selector, gRPC and record name the target; any failure up to the final wait leaves the selector on the bootstrap colour unless the roll-back write fails too; the record moves only on success |
| `ColourSafety.FrameKeeps` | src/cli/deploy.js:2684-2690 | routing and selector steps never change workloads, gRPC or the record |
| `DefaultDeploy.DefaultDeployOnlyPrepares` | src/cli/deploy.js:2464-2612 | with a live ready colour a default deploy deletes and recreates only the opposite one and never points the selector elsewhere, wherever it fails |
| `DefaultDeploy.CompletedDeploy` | src/cli/deploy.js:2523-2563 | a completed default deploy leaves exactly the manifest's colours in place of the one it deleted |
| `DefaultDeploy.DeployGatedExactly` | src/cli/deploy.js:2593-2600 | over all answers a deploy writes only colours it observed ready if and only if workload updates are on or it does not route |
| `DefaultDeploy.LiveDroppedExactly` | src/server/runtime/conf.js:1763-1768 | the deletes spare the serving colour if and only if the colour read at the start does not lead to it |
| `DefaultDeploy.FailedReadDeletesBlue` | src/cli/deploy.js:1376-1385 | a silently failed read while blue serves makes the deploy take blue down |
| `DefaultDeploy.StaleReadDeletesPromoted` | src/cli/deploy.js:2464-2479 | a switch completed between the read and the deletes has its colour taken down |
| `DefaultDeploy.SwitchKeepsLive` | src/cli/deploy.js:2684-2818 | the selector's colour has its workload in every state of a switch if and only if the colour it starts from stands, and the target too when the flip happens |
| `DefaultDeploy.DeployKeepsLive` | src/cli/deploy.js:2514-2682 | the same in every state of a default deploy if and only if what it read first does not lead it to the serving colour and the colour it writes stands when it does |
| `DefaultDeploy.ServingColourStandsExactly` | src/cli/deploy.js:2464-2824 | over every sequence of default deploys and switches, failing anywhere, the selector never names a colour that is not there, if and only if each command spares it so in the state it starts from |
| `DefaultDeploy.ServingColourStands` | src/cli/deploy.js:2464-2824 | with honest answers it never does |
| `SelectorHistory.DefaultDeployMovesExactly` | src/cli/deploy.js:2587-2612 | a default deploy moves the selector exactly when it writes it, did not see the live colour ready, and prepared the other one |
| `SelectorHistory.SelectorIsLastPromoted` | src/cli/deploy.js:2464-2824 | over every history of default deploys and switches that read the live colour ready, failing anywhere with no roll-back refused, the selector is the target of the last completed promotion |
| `SelectorHistory.InterleavedSelector` | src/cli/deploy.js:2464-2824 | any number of switches and default deploys, failing anywhere, their calls in any interleaving, whatever each read: the selector ends on the colour the last one to write it leaves, and untouched if none did |
| `SelectorHistory.InterleavedStands` | src/cli/deploy.js:2464-2824 | in every state of any such interleaving a colour that stood keeps standing, if and only if no deploy among the commands is led to it by what it read first |
| `SelectorHistory.CommandLeaves` | src/cli/deploy.js:2602-2818 | a command that writes the selector leaves it on its target, on what it started from, or on what it desired, and exactly when which |
| `SelectorHistory.InterleavedExactly` | src/cli/deploy.js:2464-2824 | of a switch that promotes and a default deploy that read the old colour the switch prevails if and only if it wrote the selector last |
| `SelectorHistory.StaleDeployTakesBack` | src/cli/deploy.js:2576-2612 | a default deploy that writes on a read from before a completed switch takes the selector back |
| `EdgeReload.Ingress.SwapCandidate` | src/cli/cluster.js:1519-1524 | how far the swap got decides which of previous, file and running configuration changed |
| `EdgeReload.Ingress.RestorePrevious` | src/cli/cluster.js:1525-1531 | puts back whatever previous file is there, from this run or an earlier one |
| `EdgeReload.Ingress.InstallUnderpostIngress` | src/cli/cluster.js:1345-1590 | candidate, validation, swap, manifest, roll-back and clean-up in order; a node that cannot start the image stops it with nothing touched; exactly when it ends normally and what the ConfigMap holds; what is running stays validated; an ordinary run commits to edge and ConfigMap or leaves the edge on what it ran |
| `EdgeReload.InstallEndsExactly` | src/cli/cluster.js:1461-1590 | for any state and answers: a failed image check changes nothing; exactly when a run ends normally, reaches the ConfigMap, and leaves a running pod |
| `EdgeReload.RunningExactly` | src/cli/cluster.js:1499-1557 | for any state and answers the configuration that runs afterwards: the new one, the one before, or that of a left-over file |
| `EdgeReload.FileExactly` | src/cli/cluster.js:1519-1557 | the same for the file nginx would load again |
| `EdgeReload.LeftoversExactly` | src/cli/cluster.js:1504-1562 | which previous file and candidate a run leaves beside it |
| `EdgeReload.RunningIsAlwaysValidated` | src/cli/cluster.js:1499-1562 | over every sequence of runs, failing anywhere, what nginx runs passed validation |
| `EdgeReload.ReloadIsATransaction` | src/cli/cluster.js:1499-1562 | an ordinary run commits the new text to both edge and ConfigMap or leaves the edge on what it ran, and the state suits the next run |
| `EdgeReload.FailureRestoresBothExactly` | src/cli/cluster.js:1534-1557 | a failed run leaves both as before if and only if it did not get as far as the ConfigMap document |
| `EdgeReload.EdgeIsARegister` | src/cli/cluster.js:1499-1562 | over every sequence of ordinary runs the edge runs the text of the last run that committed |
| `EdgeReload.RollbackRestoresExactly` | src/cli/cluster.js:1519-1531 | a roll-back after a swap that never ran restores the running configuration if and only if no stale previous file differs from it |
| `EdgeReload.LostCleanupResurrectsOldTable` | src/cli/cluster.js:1558-1562 | a lost clean-up and a failed second run put back the table from before the first |
| `EdgeReload.CompletedRunLoadsExactly` | src/cli/cluster.js:1443-1508 | a completed run leaves the edge on the new text if and only if it was loaded hot, restarted or loaded already |
| `EdgeReload.SuccessOverTheOldTable` | src/cli/cluster.js:1450-1508 | an empty readiness read: success is reported, the ConfigMap is new and the edge still runs the old table |
| `NodePorts.AwaitHostPortsFree` | src/cli/cluster.js:1182-1224 | true exactly when some look up to the deadline found neither Contour's claim nor the host network |
| `NodePorts.Node.Init` | src/cli/cluster.js:570-722 | the calls of a run in order, with the node after each place it may stop at; a completed one puts the edge up exactly when it found the other stack and the ports were free; it has one owner exactly when it settles, and always when it read the presence right and its releases took hold |
| `NodePorts.StageExactly` | src/cli/cluster.js:570-722 | Contour, its claim, the Gateway stack, its host network and the edge at every place a run may stop at, each from the flags and the answers |
| `NodePorts.CompletedRunHasOneOwner` | src/cli/cluster.js:570-722 | from any state and for any reads, releases and wait, a completed run ends with one owner if and only if it settles: beside the other stack Contour's claim goes or nothing comes in front of it, alone no two of claim, host network and edge meet |
| `NodePorts.FailedReleaseExactly` | src/cli/cluster.js:577-722 | beside the other stack a release that did not take hold is harmless exactly when no claim meets an edge that is already there |
| `NodePorts.RightReadsSettle` | src/cli/cluster.js:573-575 | right presence reads settle when the releases take hold, also after aborted runs |
| `NodePorts.IngressOnlyOverFreePorts` | src/cli/cluster.js:704-722 | the edge is applied only where neither data plane holds the ports and both stacks are there |
| `NodePorts.PortsHaveOneOwner` | src/cli/cluster.js:570-722 | after every sequence of runs, aborted, unverified and misread ones included, a completed run has one owner exactly when it settles on what the others left, and always when all read the presence right and its releases take hold |
| `NodePorts.ContourBesideEdgeExactly` | src/cli/cluster.js:577-592 | `--contour` beside a live edge keeps one owner if and only if it stopped before Contour's manifest, or saw the Gateway stack and got past a release that took hold |
| `NodePorts.MisreadPresenceSplitsPorts` | src/cli/cluster.js:573-575 | a failed presence read ends with two owners |
| `HostPortPatch.BuildOperations` | src/cli/cluster.js:1132-1143 | the nested walk yields one remove per claimed port, in order |
| `HostPortPatch.PatchIsExact` | src/cli/cluster.js:1132-1151 | applied in order (section 4.2 of RFC 6902) every target exists when reached and the result is the document with its container list released and nothing else changed |
| `HostPortPatch.ContainersOfDocument` | src/cli/cluster.js:1138-1141 | the operations' pointer reads the container list of the pod template and writes nothing else of the document |
| `HostPortPatch.OperationsExactly` | src/cli/cluster.js:1134-1144 | there is something to remove exactly when some port claims one of the ports |
| `HostPortPatch.ReleasedMeans` | src/cli/cluster.js:1132-1143 | no selected hostPort is left, and every other container field, port and port field is as it was |
| `HostPortPatch.DaemonSet.ReleaseHostPortClaim` | src/cli/cluster.js:1118-1168 | true exactly when claims were found, the patch was accepted and the second read finds none, also when it was accepted without effect; the document afterwards |
| `EventSuspension.Maintenance.SuspendEvents` | src/cli/event.js:1262-1320 | the steps of a suspend up to the first that fails; refused exactly over a file, an unreadable set or an undeclared event; ends normally exactly when every call works, chmod included, and then nothing is deployed and the file holds the whole set; an original set stays recoverable |
| `EventSuspension.Maintenance.ResumeEvents` | src/cli/event.js:1332-1379 | the steps of a resume up to the first that fails, with its refusals; on normal end the recorded set runs and the file is gone, otherwise the file stays; an original set stays recoverable |
| `EventSuspension.SuspendEndsExactly` | src/cli/event.js:1262-1320 | for every answer how a suspend ends and what it leaves: the set is withdrawn only behind a written, renamed and restricted file, and no temporary one stays |
| `EventSuspension.ResumeEndsExactly` | src/cli/event.js:1332-1379 | the same for a resume: refused exactly over a file that is missing, unreadable, of another version, with no valid namespace or an undeclared event |
| `EventSuspension.TemporaryOnlyBetween` | src/cli/event.js:1287-1301 | a crash leaves a temporary file only between its write and its rename |
| `EventSuspension.CommandRecoverable` | src/cli/event.js:1262-1379 | every prefix of a command keeps the original set running or on record |
| `EventSuspension.AlwaysRecoverable` | src/cli/event.js:1262-1379 | over every sequence of suspends, resumes, failed syncs and crashes between any two steps the original set is running or on record |
| `EventSuspension.ResumeRestoresOriginal` | src/cli/event.js:1332-1379 | a resume that completes runs exactly the original set and drops the file; one that does not keeps the file, so it can be retried |
| `EventSuspension.SuspendRecordsFirst` | src/cli/event.js:1281-1308 | in every state from which an event is missing the file already records the whole set |
| `EventSuspension.ResumableExactly` | src/cli/event.js:1263-1351 | what a suspend recorded can ever be resumed if and only if the namespace it resolved (`default` for an empty one) is a DNS label |
| `EventSuspension.SelectionChangesOneEvent` | src/cli/event.js:1396-1412 | publishing or withdrawing one event leaves every other declared one as it was; an unreadable set publishes nothing; a failed sync leaves what it leaves |
| `EventSuspension.SelectionsWhileSuspendedAreUndone` | src/cli/event.js:1332-1412 | publications made while suspended do not survive the resume, which restores exactly the original set |
| `CooldownKey.KeyIsCanonical` | src/cli/event.js:171-181 | two groups share a key if and only if they have the same event and the same set of subjects, or one has none and the other just `global` |
| `CooldownKey.CommaCollides` | src/cli/event.js:171-181 | with a comma in a subject two different groups share a key |
| `SortedStrings.SortedDistinctSorts` | src/cli/event.js:172-179 | sorting and dropping repeats keeps the set and gives a strictly sorted list |
| `SortedStrings.SortedUnique` | src/cli/event.js:172-179 | a set has one strictly sorted list, so order and repeats cannot show in the key |
| `CooldownKey.JoinInjective` | src/cli/event.js:180-180 | comma-free subjects can be read back from the joined text |
| `Cooldown.Dispatcher.Turn` | src/cli/event.js:2160-2166 | one turn of the loop dispatches exactly when the memory of earlier turns allows it, and records first |
| `Cooldown.Dispatcher.Deliver` | src/cli/event.js:2129-2170 | exactly which delivery gets which reply, none for a null body, which throws; a refused one takes no turn; the turns taken, and exactly the turns dispatched |
| `Cooldown.EventIdsExact` | src/cli/event.js:1792-1802 | an id is accepted exactly when an alert of it fires and it is registered: resolved alerts alone never dispatch |
| `Cooldown.GroupExactly` | src/cli/event.js:2159-2159 | the group of an event is every alert of it, firing or resolved |
| `Cooldown.EventIdsDistinct` | src/cli/event.js:1792-1802 | no id is accepted twice in one delivery |
| `Cooldown.EventIdsInOrder` | src/cli/event.js:1792-1802 | the accepted ids stand in the order in which their events fire first |
| `Cooldown.RememberedIsLatest` | src/cli/event.js:2126-2166 | the map holds the time of the latest dispatch of each key and nothing for the others |
| `Cooldown.SentMeans` | src/cli/event.js:2161-2166 | a turn dispatches exactly when what the earlier turns left in the map allows it |
| `Cooldown.SkippedExactly` | src/cli/event.js:2161-2165 | a turn is skipped exactly when the latest dispatch of its key is less than the cooldown ago, or there is none and the clock reads less than the cooldown |
| `Cooldown.DispatchesAreSpaced` | src/cli/event.js:2147-2170 | any two dispatches of one key in any trace are at least the cooldown apart, even if the clock steps back |
| `Cooldown.FiringIsDispatchedOrCooling` | src/cli/event.js:2147-2170 | each registered event firing in an accepted delivery has a turn of that delivery, with its group and clock, that is dispatched, or a same-key dispatch came less than the cooldown before, or the clock has not reached one cooldown |
| `Cooldown.TurnsAreAuthorised` | src/cli/event.js:2133-2158 | every turn belongs to a registered event that fires in an authorised, parseable delivery |
| `Cooldown.RepeatedExactly` | src/cli/event.js:170-181 | in any trace an event is skipped exactly when its latest dispatch with the very same subjects is less than the cooldown ago, or there is none and the clock reads less |
| `Cooldown.ResolvedSubjectBreaksTheCooldown` | src/cli/event.js:2157-2166 | the same firing subject is dispatched twice within its cooldown because another of its group resolved |
| `PortAllocator.EnvFiles.TakeHost` | src/cli/client.js:214-236 | a host's own paths get their slots first and its single replicas after them |
| `PortAllocator.EnvFiles.WriteEnvs` | src/cli/client.js:196-206 | the env files are written in order up to the first missing one; skipped exactly when one is |
| `PortAllocator.EnvFiles.SyncEnvPort` | src/cli/client.js:178-239 | every PORT it leaves, and that it leaves every other file alone |
| `PortAllocator.PlanTiles` | src/cli/client.js:187-238 | over the deploys not skipped, the slots are those of their own paths, one each, and of their single replicas, as wide as the path, and tile the offsets below the total |
| `PortAllocator.PlanThin` | src/cli/client.js:224-234 | every slot is one wide, or two with a peer |
| `PortAllocator.PlanShape` | src/cli/client.js:214-236 | the slots of a deploy stand together, and on each host its own paths precede the replicas |
| `PortAllocator.ReplicaGetsItsSlot` | src/cli/client.js:193-211 | a replica's PORT is the start of a slot of its own, in its parent's block, after that host's own paths, also when it is listed for several hosts or before its parent too |
| `PortAllocator.PlainGetsItsBlock` | src/cli/client.js:193-213 | any other deploy's PORT is the start of its block, that of a replica listed only before its parent included |
| `PortAllocator.FirstDeployPorts` | src/cli/client.js:180-184 | the first deploy is on 3000, 4000 and 5000 |
| `PortAllocator.WrittenExactly` | src/cli/client.js:196-206 | an env file is written exactly when it and those before it exist; a deploy is skipped exactly when one is missing |
| `PortAllocator.ReplicaIdExactly` | src/server/runtime/conf.js:833-833 | the id of a replica is the deploy's, a dash and its path without the first character |
| `PortAllocator.PlainShareExactly` | src/cli/client.js:193-213 | two deploys that are nobody's replicas share a PORT exactly when no slot was placed between them |
| `PortAllocator.ParentSharesExactly` | src/cli/client.js:193-236 | a deploy shares its PORT with a replica's slot exactly when its block begins with that slot |
| `PortAllocator.SkippedSharesWithNext` | src/cli/client.js:196-210 | a deploy skipped after some files were written leaves them on the next deploy's PORT |
| `PortAllocator.EnvironmentsApartExactly` | src/cli/client.js:180-184 | the slots of the three environments stay apart exactly up to a total of 1000 |
| `FileSweep.Navigate` | src/cli/db.js:1643-1648 | optional access part by part ends at the value the path reaches |
| `FileSweep.CheckFieldReferences` | src/cli/db.js:1628-1672 | the recursion marks exactly what the declared paths mention, and throws exactly on a null in the tree or a failed query |
| `FileSweep.HasNullExactly` | src/cli/db.js:1629-1668 | a tree breaks the scan exactly when a null stands in it under some path |
| `FileSweep.ScanAll` | src/cli/db.js:1608-1675 | exactly the ids referenced by loaded models are marked |
| `FileSweep.Files.Clean` | src/cli/db.js:1600-1695 | the collection afterwards: exactly the listed unreferenced Files are gone, none in a dry run, none after an exception, none created after the listing |
| `FileSweep.MatchesReached` | src/cli/db.js:1634-1637 | for a document the walk reaches, the query drops it exactly when the value is null or an array with a null entry |
| `FileSweep.SeenExactly` | src/cli/db.js:1634-1657 | a document protects an id exactly when the id stands at the path, through objects, in a value or in an array without a null |
| `FileSweep.SurvivesExactly` | src/cli/db.js:1608-1678 | a listed File survives exactly when some document of a loaded model protects it at a declared path |
| `FileSweep.NullEntryLosesTheRest` | src/cli/db.js:1634-1654 | a null entry makes the sweep miss the other ids of the list |
| `FileSweep.BelowAnArrayNothingIsSeen` | src/cli/db.js:1641-1645 | an array on the way of a declared path protects no id, for any document and path |
| `FileSweep.ArrayOfDocumentsIsMissed` | src/cli/db.js:1643-1648 | an id below an array of sub-documents is missed though the query finds the document |
| `Inventory.InventoryDefects` | src/cli/db.js:235-248 | exactly the defects that are true of the two inventories, one for each namespace they disagree on, none exactly when they are equal |
| `NfsMount.Host.Survey` | src/cli/baremetal.js:3676-3711 | which paths a pass unmounts and which it would mount |
| `NfsMount.Host.NfsMountCallback` | src/cli/baremetal.js:3661-3734 | terminates; an unmount returns exactly when no stack is deeper than its recalls; the depth of every path afterwards, also after a throw; a mount stacks nothing |
| `NfsMount.FailuresAreProgress` | src/cli/baremetal.js:3712-3726 | repeated failing unmounts take `maxRecalls + 1` layers each and reach zero |
| `Listeners.NameIsLabel` | src/cli/deploy.js:1731-1745 | every listener name is a DNS label of at most 63 characters |
| `Listeners.NameExactly` | src/cli/deploy.js:1731-1745 | a name is the protocol, the clipped hostname and the digest, in that order |
| `Listeners.NormalizedExactly` | src/cli/deploy.js:1733-1737 | what surrounds the first and last letter or digit of the lower-cased hostname goes and what is between is dashed; a hostname without any is named `host` |
| `Listeners.DashedExactly` | src/cli/deploy.js:1736-1736 | words stay and each run of other characters becomes one dash |
| `Listeners.ClippedExactly` | src/cli/deploy.js:1738-1744 | the whole normalized hostname if it fits, else its first characters less the dashes they end in |
| `Listeners.NamesEqualExactly` | src/cli/deploy.js:1731-1745 | two names are the same exactly when protocol, digest and clipped hostname are |
| `Listeners.NamesAreDistinct` | src/cli/deploy.js:1675-1745 | distinct listeners of a Gateway have distinct names when the digest tells the hosts apart |
| `Listeners.MergedListenersNeverCollide` | src/cli/deploy.js:1675-1722 | for any host list the triples of port, protocol and hostname are pairwise distinct, and a host is served exactly when named and not empty |
| `Listeners.GatewayListenersExactly` | src/cli/deploy.js:1675-1707 | exactly which listeners a Gateway has: cleartext on 80 and with TLS also on 443 for each named host |
| `Listeners.ListenersInOrder` | src/cli/deploy.js:1680-1707 | hosts in sorted order, each with its cleartext listener first |
| `Listeners.PolicyTargetsExactly` | src/cli/deploy.js:1793-1825 | the HTTP/3 policy targets exactly the emitted HTTPS listeners if and only if no host is empty, never a cleartext one, and nothing with HTTP/3 off |
| `Duration.DecimalRead` | src/cli/deploy.js:183-186 | a decimal, with a unit or none, is read as the number of its digits moved by the places after the point, rounded to the nearest millisecond, up to the rounding of a binary fraction |
| `Duration.WholeRead` | src/cli/deploy.js:183-186 | a whole number is read as so many of its units, milliseconds without one |
| `Duration.ReadExactly` | src/cli/deploy.js:183-184 | exactly digits, perhaps a point and more digits, perhaps a unit are read |
| `Duration.ConvertedExactly` | src/cli/deploy.js:179-184 | an absent, empty or unreadable value gives none, `infinity` and `0` disable the timeout, any other one is rendered |
| `Duration.RenderedAs` | src/cli/deploy.js:187-189 | the text of a rendered value, unit by unit |
| `Duration.RoundedIsNearest` | src/cli/deploy.js:186-186 | a fraction of a unit is read as the nearest millisecond, a half going up |
| `Duration.RenderedBounds` | src/cli/deploy.js:187-189 | the rendered value is never below the input and less than a second above it |
| `Duration.LosslessExactly` | src/cli/deploy.js:187-189 | nothing is lost exactly for whole seconds and for at most 99,999 ms |
| `Duration.CoarsestFittingUnit` | src/cli/deploy.js:187-188 | when some unit fits the coarsest such unit is used and nothing is lost |
| `Duration.FiveDigitsExactly` | src/cli/deploy.js:171-189 | at most five digits exactly when some unit fits or the input is at most 99,999,000 ms |
| `Duration.ReadsBackExactly` | src/cli/deploy.js:179-190 | a rendered duration read back gives the value it stands for, and the input itself exactly when nothing was lost |
| `Duration.ConvertingTwice` | src/cli/deploy.js:179-190 | converting a converted duration again does not change its worth |

## Left out

- Execution of the shell, kubectl, helm, SSH and docker, and the text of manifests and nginx
  configurations: a call is a step that happens or throws; `--ignore-not-found` and silent reads are
  modelled by what they report.
- A call that fails has no effect on the modelled objects, except where the tool itself sends several
  documents or commands in one call (route files, workload manifests, the edge manifest and the swap
  command), whose every partial effect is a case.
- `Routing.Resolve`: a path is matched by the rule written for it; prefix precedence between rules is not
  modelled.
- `TrafficCommands.Cluster.InstallGatewayConf`: the files copied before nginx accepts them are not
  modelled, only the configuration nginx runs.
- Readiness polls and `getCurrentTraffic` are answers of the world; how `deploymentHasReadyReplicas`
  counts replicas would only add an easy member.
- `FirstState.PromoteNeverUnroutes`: a ConfigMap the edge did not load counts as not loaded; that a later
  restart of its pod would load it is only in `EdgeReload`.
- `EdgeReload.ReloadIsATransaction`: assumes that roll-backs and the final clean-up reach the container and
  that a left-over previous file equals the running one; `EdgeReload.RollbackRestoresExactly` and
  `EdgeReload.LostCleanupResurrectsOldTable` say what happens without.
- `EventSuspension.AlwaysRecoverable`: a readable answer about the deployed events is taken to be right, and
  the recovery file is changed by no one else.
- `Cooldown.Dispatcher.Deliver`: the dispatch itself runs later and is not modelled; ids that JavaScript
  objects inherit (`constructor` and the like) count as registered only if the registry is said to hold
  them.
- `CooldownKey.KeyIsCanonical`: needs comma-free subjects and colon-free event ids; strings are compared by
  code unit.
- `PortAllocator.ReplicaGetsItsSlot`: a deploy that takes slots is listed once, and the path lists are those
  after `loadReplicas` has expanded them.
- `FileSweep.Files.Clean`: a delete that itself fails is not modelled; it leaves every File in place.
- `FileSweep.Navigate`: property names that arrays and strings have themselves (indices, `length`) and empty
  keys in the reference tree are not modelled.
- `NfsMount.Host.NfsMountCallback`: mount and unmount commands are taken to succeed, one layer each, and
  the `binfmt_misc` mount is not modelled.
- `Listeners.NameIsLabel`: lower-casing and SHA-1 are parameters; of the digest only its eight hexadecimal
  digits are used, and its injectivity where it is named.
- `Duration.DecimalRead`: numbers are exact decimals; the source multiplies a binary double, whose rounding
  is not modelled.
- Event probes, WireGuard remediation, database streams and backups, kernels and boot images, compose files,
  domains and the env store: they depend on hosts and modules outside this model or would only add easy
  members.
