# Verified model of the LXC hosting panel's manager

The panel keeps independent stores in agreement without transactions: the SQLite
rows, the live LXD instances, one nft file per user and the loaded ruleset, the
ndppd rules, the Traefik directory and the throttle map in memory. `World.dfy`
puts them into one state. External calls take their outcome from fault
parameters, so the statements range over any combination of failing calls,
including a launch that fails after the container exists, and a delete or a
limit change that takes effect but reports an error. What a failing call cannot
do in the model is listed at the end.

- `Manager.dfy` is the manager in the program's own form: a class whose methods
  change the stores step by step. Each method is proved to end in exactly the
  state, and answer, of a closed form.
- `Fleet`, `Quotas`, `Throttle`, `Domains` and `Reconcile` hold those closed
  forms and what is proved about one operation; `Plumbing` adds ndppd and nft.
- `Outcomes.dfy` says for each operation when it succeeds, what is then there and
  what a failure leaves, without naming the closed forms' branches.
- `Runs.dfy` lifts what holds unconditionally to every run of all operations
  and process restarts.
  `RunsExact.dfy` does it for what needs some calls to work: an agreement of two
  stores holds throughout a run if and only if each operation was, in the state
  it met, one that keeps it.
- `AddRace.dfy` drops the per-process mutex: any number of Adds take single
  steps in any interleaving, over UNIQUE columns and LXD's unique names.
  `AddRaceRuns.dfy` builds the runs that end badly.
- `Allocation`, `Nat`, `IPv6`, `Traffic`, `Limiter`, `Audit`, `Cpu` and
  `Version` are the algorithmic cores, with loops proved against
  specification functions.

sha256, random numbers, clocks and the host's address list are parameters.

## Where the code does not do what it says

The model follows the code. Each of these is proved, with the exact condition
where there is one:

- A leftover nft file after Del is called harmless. It makes the loaded rules
  ambiguous exactly when its SSH port is given out again in another slot
  (`Plumbing.LeftoverFileConflicts`, `RunsExact.LeftoverRun`). A failed row
  deletion or rule rewrite leaves rows and ndppd rules apart
  (`Plumbing.DelKeepsRules`).
- Concurrent samplers are said never to double-count; out of order they do
  (`Traffic.OutOfOrderOverCounts`). A failed state read also over-counts
  (`Traffic.FailedReadOverCounts`).
- Reinstall leaves the throttle entry behind, so a throttled user comes back
  unlimited and, while over quota, stays so until the panel process restarts
  (`Throttle.ReinstallEscapesThrottle`). A NIC write that errs although it took
  effect, once the user has crossed the quota again and while it stays there, is
  not repaired until the panel process restarts (`Throttle.HiddenWriteSticks`,
  `Throttle.RestartRepairs`).
  A stale limit whose first read after a restart failed is not lifted as long as
  the user stays under quota and the process runs
  (`Throttle.EnforceKeepsAgreement`, `Throttle.SettledStays`).
- A quota write that errs although it took effect is not on the undo stack
  (`Quotas.FailureExact`).
- Del stopping at the sessions leaves Traefik files and the throttle entry
  (`Reconcile.DelKeepsDir`, `Throttle.DelKeepsAgreement`).
- Racing Adds of one name: the rollback of one can remove the nft file of the
  other (`AddRace.FileKeptExact`), even with every call working if an Add of
  another name takes the index (`AddRaceRuns.NamesakeRemovesFile`). A partial
  launch in a race ends with two live containers on one address
  (`AddRaceRuns.LeftoverTakesAddress`). Two names with one IPv6 block can both
  be added (`AddRaceRuns.BlockTwinsBothSucceed`): no column keeps blocks unique.
- Non-numeric version segments do not always count as 0, and unparseable
  origins are not always blocked (`Version.SegmentIsZero`,
  `Version.OriginBlocked`).
- ParseCPU has no upper bound (`Cpu.ParseCPUOverflows`); quotas from 2^34 GiB
  wrap in the comparison (`Traffic.ShouldThrottleExact`); a count or prune that
  fails at the cap leaves the audit log one row too long for good (`Audit.KeepsNewest`).

## Model

| member | source | states |
|---|---|---|
| `ManagerModule.Manager.Add` | src/internal/mgr/mgr.go:240-360 | From any state and for any outcome of every call, the whole world after Add is `Fleet.AddState` and the answer `Fleet.AddResult`: checks in order, launch, seven stages, rollback from whichever fails. Its precondition is the foreign key of the traffic and domain tables, which `Runs.RunsKeepReferences` keeps |
| `ManagerModule.Manager.Cleanup` | src/internal/mgr/mgr.go:309-321 | Each rollback call does its part or nothing, independently of the others; the row goes only if this Add created it |
| `ManagerModule.Manager.Del` | src/internal/mgr/mgr.go:487-531 | The world after Del is `Fleet.DelState`, its error `Fleet.DelError`: container first, then rules, files, row with its cascade, sessions, Traefik files, throttle entry |
| `ManagerModule.Manager.Reinstall` | src/internal/mgr/mgr.go:857-905 | The world after Reinstall is `Fleet.ReinstallState`, its error `Fleet.ReinstallError` |
| `ManagerModule.Manager.Launch` | src/internal/lx/lx.go:653-693 | Create, start, wait: an existing name is refused without effect; a failure after the create leaves the container; nothing else moves |
| `ManagerModule.Manager.DeleteInstance` | src/internal/lx/lx.go:548-561 | The instance is gone, kept, or gone with an error reported; a missing one counts as deleted |
| `ManagerModule.Manager.CheckLXDConflict` | src/internal/mgr/mgr.go:401-415 | Reports a conflict exactly when a live instance has the name or the address |
| `ManagerModule.Manager.CheckIPv6BlockCollision` | src/internal/mgr/mgr.go:366-395 | Reports a collision exactly when another row has the block or the least free gateway lies in it |
| `ManagerModule.Manager.WriteNDPPD` | src/internal/mgr/ipv6.go:244-337 | After a write the rules are the blocks of rows − drop + add, none when there are none; a failed write, or a file that cannot be removed, changes nothing, the latter without an error |
| `ManagerModule.Manager.CreateUser` | src/internal/db/user.go:30-42 | INSERT succeeds exactly when name, index and SSH port are all free |
| `ManagerModule.Manager.DeleteUser` | src/internal/db/user.go:142-145 | The row goes together with its traffic and domain rows, and nothing else |
| `ManagerModule.Manager.UpdateQuotasAndTraffic` | src/internal/mgr/mgr.go:735-754 | The world after it is `Quotas.FullState`, its error `Quotas.FullError`, for any outcome of each write, undo and restore |
| `ManagerModule.Manager.UpdateQuotas` | src/internal/mgr/mgr.go:669-728 | Forward writes, undo stack run from its top, row last: exactly `Quotas.UpdateState` |
| `ManagerModule.Manager.Unwind` | src/internal/mgr/mgr.go:684-699 | Running the undo stack from its top leaves the instance `Undone` gives |
| `ManagerModule.Manager.SampleTraffic` | src/internal/mgr/traffic.go:24-55 | Without counters nothing moves and it fails; else exactly the rows of users with live counters whose update works advance, and it fails exactly when some such update does |
| `ManagerModule.Manager.ApplyTraffic` | src/internal/db/traffic.go:37-55 | One upsert: insert with zero totals, or advance both directions from the stored baselines |
| `ManagerModule.Manager.EnforceTrafficLimits` | src/internal/mgr/traffic.go:107-150 | The loop over users in any order ends in `Throttle.EnforceState`, asks LXD to change exactly the limits in `Throttle.Wanted`, and errs exactly when some such call does |
| `ManagerModule.Manager.EnsureNicRateLimit` | src/internal/lx/lx.go:499-517 | Sets or clears the rate of one live NIC; refused, done, or done with an error reported |
| `ManagerModule.Manager.Restart` | src/internal/mgr/traffic.go:115-126 | A restart of the process between operations loses the throttle map and nothing else |
| `ManagerModule.Manager.AddDomain` | src/internal/mgr/mgr.go:910-935 | Row, then file, then compensating delete: exactly `Domains.AddDomainState` and its error |
| `ManagerModule.Manager.DelDomain` | src/internal/mgr/mgr.go:939-962 | Row, then file, then compensating re-insert with the old flag |
| `ManagerModule.Manager.SetDomainProtocol` | src/internal/mgr/mgr.go:966-990 | Row, then file, then compensating restore; setting the same flag changes nothing |
| `ManagerModule.Manager.WriteDomain` | src/internal/tfx/tfx.go:51-67 | Temp file and rename: the target is replaced whole or not touched |
| `ManagerModule.Manager.SyncAllDomains` | src/internal/mgr/mgr.go:608-633 | Rewriting all rows then sweeping leaves exactly `Reconcile.SyncState`, and reports failure exactly when some write, the listing or a removal failed |
| `Outcomes.AddSucceedsExact` | src/internal/mgr/mgr.go:240-360 | Add succeeds if and only if the name and options are valid, the name, a slot, an SSH port, the IPv6 block and the drawn address are free, pool and listing allow it, and every later call works |
| `Outcomes.AddEffect` | src/internal/mgr/mgr.go:240-360 | A successful Add gives a row and a container with the options' CPU, memory, disk and quota in that order, the slot's address, ports and block, no rate limit, its nft file loaded and its ndppd rule, and changes nothing else |
| `Outcomes.AddFailureExact` | src/internal/mgr/mgr.go:309-360 | What an Add failing after its launch leaves of row, container, nft file, loaded rules and ndppd rule, each exactly; nothing else moves |
| `Outcomes.AddStoppedExact` | src/internal/mgr/mgr.go:240-308 | An Add failing before or in its launch leaves nothing, but the container if the launch failed after the create |
| `Outcomes.DelSucceedsExact` | src/internal/mgr/mgr.go:487-531 | Del succeeds if and only if the user exists and the container, the row and the sessions go |
| `Outcomes.DelEffect` | src/internal/mgr/mgr.go:487-531 | It then leaves no row, container, traffic, domain row or throttle entry, no nft file or ndppd rule whose removal worked, and changes nothing else |
| `Outcomes.DelClearsFiles` | src/internal/mgr/mgr.go:522-526 | and of the Traefik files removes exactly those of the user's domains that can be removed |
| `Outcomes.DelFailureExact` | src/internal/mgr/mgr.go:496-523 | A failed Del has changed nothing, only the container, all but the row, or all but files and throttle entry, by where it stopped |
| `Outcomes.ReinstallSucceedsExact` | src/internal/mgr/mgr.go:857-905 | Reinstall succeeds if and only if every call it makes works, the IPv6 wiring counted only with a prefix |
| `Outcomes.ReinstallEffect` | src/internal/mgr/mgr.go:857-905 | The container is there afterwards if and only if the old one stayed, or was removed cleanly with the image there and the create done; a new one has the row's address and limits, unthrottled; nothing else moves but the ndppd rules |
| `Outcomes.BindSucceedsExact` | src/internal/mgr/mgr.go:910-935 | Binding succeeds if and only if it is allowed, the text is a domain nobody has, and both writes work |
| `Outcomes.BindEffect` | src/internal/mgr/mgr.go:910-935 | It then gives the domain to the user with the flag asked for, and puts one file in place with the user's address and that flag |
| `Outcomes.BindFailure` | src/internal/mgr/mgr.go:925-933 | A failed bind changes no YAML file, and no row unless its compensation failed too |
| `Outcomes.UnbindSucceedsExact` | src/internal/mgr/mgr.go:939-962 | Unbinding succeeds if and only if the domain is the user's, the row goes, and the file goes if there is one |
| `Outcomes.UnbindEffect` | src/internal/mgr/mgr.go:939-962 | It then removes that row and that file and nothing else |
| `Outcomes.UnbindFailure` | src/internal/mgr/mgr.go:950-960 | A failed unbind changes no file, and no row unless its compensation failed too |
| `Outcomes.ToggleSucceedsExact` | src/internal/mgr/mgr.go:966-990 | Setting the flag succeeds if and only if the domain is the user's and, when the flag changes, both writes work |
| `Outcomes.ToggleEffect` | src/internal/mgr/mgr.go:966-990 | The row then has the flag, and so has the file when the flag changed |
| `Outcomes.ToggleFailure` | src/internal/mgr/mgr.go:978-988 | A failed toggle changes no YAML file, and no row unless its compensation failed too |
| `Outcomes.AgreementMeans` | src/internal/tfx/tfx.go:24-67 | Table and directory agree: exactly one YAML file per domain row, with the owner's address and the row's flag |
| `Outcomes.SyncDoesWhatItCan` | src/internal/mgr/mgr.go:608-633 | Even a failing reconciliation puts every writable known file right, keeps the others, and removes every removable leftover |
| `Fleet.PlanFresh` | src/internal/mgr/mgr.go:240-305 | Passing Add's checks means: index, port, address and block are free of every row, and the address of every container |
| `Fleet.AddKeepsFleet` | src/internal/mgr/mgr.go:240-360 | Whatever fails in Add: rows stay unique and well formed, containers with a row hold its IPv4, orphans hold none a row owns, all IPv4s distinct, blocks distinct |
| `Fleet.DelKeepsFleet` | src/internal/mgr/mgr.go:487-531 | The same for Del |
| `Fleet.ReinstallKeepsFleet` | src/internal/mgr/mgr.go:857-905 | The same for Reinstall |
| `Fleet.ReinstallNeverConflicts` | src/internal/mgr/mgr.go:857-905 | Reinstall needs no conflict check: no other container has the row's address |
| `Fleet.AddTouches` | src/internal/mgr/mgr.go:240-360 | Add moves at most the new name's row and container |
| `Fleet.BlockCheckExact` | src/internal/mgr/mgr.go:366-395 | The block check passes if and only if no other row has the block and, for the zero-hash block, no gateway is found |
| `Plumbing.FailedAddLeavesNoTrace` | src/internal/mgr/mgr.go:309-360 | After a successful Launch, any later failure with working rollback calls leaves no row, container, nft file or ndppd rule of the name and everyone else unchanged |
| `Plumbing.AddKeepsRules` | src/internal/mgr/ipv6.go:342-355 | From exact ndppd rules Add ends with exact rules if and only if, after a rollback, row and rule are both gone or both left |
| `Plumbing.DelKeepsRules` | src/internal/mgr/mgr.go:500-521 | From exact rules Del ends with exact rules if and only if row and rule are both gone or both kept |
| `Plumbing.AddKeepsFiles` | src/internal/mgr/mgr.go:345-358 | Every nft file renders its row and the loaded ruleset is functional after Add if and only if it does not fail at the reload with the row rolled back and the file not |
| `Plumbing.DelKeepsFiles` | src/internal/mgr/mgr.go:508-521 | The same after Del if and only if the deleted row's file went with it |
| `Plumbing.AddKeepsStep` | src/internal/mgr/mgr.go:345-358 | With forwarding on, from rows, files and loaded rules in step Add ends in step if and only if no rollback parts row and file or keeps both unloaded |
| `Plumbing.DelKeepsStep` | src/internal/mgr/mgr.go:508-521 | Del likewise if and only if row and file go together and are reloaded, or neither goes |
| `Plumbing.LeftoverFileConflicts` | src/internal/mgr/mgr.go:508-515 | Against the comment that a leftover nft file is harmless: after the next Add the loaded rules send a port to two addresses if and only if the new user has the freed SSH port in another slot |
| `Quotas.SuccessAgrees` | src/internal/mgr/mgr.go:669-754 | Success: each requested field of row and instance has the value asked for, every other field the old one, nothing else moves |
| `Quotas.SucceedsExact` | src/internal/mgr/mgr.go:669-754 | An update succeeds if and only if it asks for a valid CPU quota and no smaller disk, and every call it makes works |
| `Quotas.FailureRestoresAll` | src/internal/mgr/mgr.go:669-754 | A failed update leaves the world unchanged if and only if it strands no value in LXD and restores a traffic quota it wrote with another value |
| `Quotas.FailureExact` | src/internal/mgr/mgr.go:681-728 | Failure: the row is unchanged, and each field of the instance is the row's unless its write took effect and was not taken back; then it is the value asked for |
| `Quotas.UpdateAgreesExact` | src/internal/mgr/mgr.go:669-754 | Row and instance agree after an update if and only if it strands no value in LXD |
| `Quotas.UpdateTouches` | src/internal/mgr/mgr.go:669-754 | Whatever fails, only this row's limits and this instance's limits move, and a failed update leaves the row's CPU, memory and disk alone |
| `Quotas.DiskNeverShrinks` | src/internal/mgr/mgr.go:669-754 | Over any run of updates, with any failures, no row's disk decreases |
| `Throttle.EnforceConverges` | src/internal/mgr/traffic.go:107-150 | From no throttle map or an agreeing one, a clean pass limits each live user if and only if the quota is used up, and the map ends equal to the limited set |
| `Throttle.EnforceMeansQuota` | src/internal/mgr/traffic.go:71-150 | After a clean pass, in the columns' range, a live user is limited if and only if there is a quota above 0 and upload plus download, 0 without a row, has reached quota·2^30 bytes; a limit it sets is 1Mbit |
| `Throttle.LaterPassExact` | src/internal/mgr/traffic.go:126-148 | A later pass of a process leaves a container right if and only if it was right or its patch took effect |
| `Throttle.RepeatPassIsSilent` | src/internal/mgr/traffic.go:107-150 | A second pass writes nothing and changes nothing |
| `Throttle.FaultsAreIsolated` | src/internal/mgr/traffic.go:107-150 | Two passes that agree on a user's own calls end alike for that user, whatever the others' calls do |
| `Throttle.EnforceKeepsAgreement` | src/internal/mgr/traffic.go:107-150 | From agreement, or from no map with any reads failing, map and limited set agree after a pass if and only if no wanted write errs after taking effect and every limited user whose first read failed is over quota and written anew |
| `Throttle.SettledStays` | src/internal/mgr/traffic.go:126-148 | A user on whom map and quota agree is never written again, whatever limit the container carries |
| `Throttle.HiddenWriteSticks` | src/internal/mgr/traffic.go:126-148 | After a NIC write that errs although applied, the next clean pass puts the container right if and only if the user is still on the same side of the quota; otherwise no number of passes of the process does |
| `Throttle.FirstPassExact` | src/internal/mgr/traffic.go:115-148 | The first pass of a process leaves a container right if and only if it was right, or the patch took effect and a limit that had to go could be read |
| `Throttle.RestartRepairs` | src/internal/mgr/traffic.go:115-148 | From any state, a restart and one clean pass leave every live user limited exactly when over quota, and the map right |
| `Throttle.AddKeepsAgreement` | src/internal/mgr/mgr.go:240-360 | Add keeps that agreement whatever fails |
| `Throttle.DelKeepsAgreement` | src/internal/mgr/mgr.go:487-531 | Del keeps it if and only if the user was not throttled, the container stayed, or Del went all the way through |
| `Throttle.ReinstallKeepsAgreement` | src/internal/mgr/mgr.go:857-905 | Reinstall keeps it if and only if the user was not throttled or the container stayed |
| `Throttle.ReinstallEscapesThrottle` | src/internal/mgr/traffic.go:107-150 | A throttled user over quota who reinstalls is unlimited after any number of passes of the same process |
| `Domains.NormalizeIdempotent` | src/internal/mgr/mgr.go:1072-1093 | Only normal domains come out of normalising, and they are fixed points of it |
| `Domains.NormalizeExact` | src/internal/mgr/mgr.go:1072-1093 | A text normalises to a domain if and only if it is that normal domain but for upper case, one trailing dot and white space around |
| `Domains.SanitizeDomain` | src/internal/tfx/tfx.go:24-34 | The loop replaces exactly the dots |
| `Domains.SanitizeInjective` | src/internal/tfx/tfx.go:24-34 | Sanitising is injective on normalised domains |
| `Domains.ElementsUnique` | src/internal/tfx/tfx.go:24-67 | Two different normalised domains never declare the same Traefik router or service |
| `Domains.WriteTouches` | src/internal/tfx/tfx.go:51-67 | A write puts one YAML file in place or leaves every YAML file alone |
| `Domains.AddDomainKeepsDir` | src/internal/mgr/mgr.go:910-935 | Binding keeps the directory the rendering of the table if and only if the write or else the compensation works |
| `Domains.DelDomainKeepsDir` | src/internal/mgr/mgr.go:939-962 | Unbinding likewise |
| `Domains.SetProtocolKeepsDir` | src/internal/mgr/mgr.go:966-990 | Toggling the PROXY flag likewise |
| `Reconcile.SyncRepairs` | src/internal/mgr/mgr.go:608-633 | From any directory, a run returning nil leaves exactly one right file per row and no other YAML file |
| `Reconcile.SyncNeverRemovesKnown` | src/internal/mgr/mgr.go:608-633 | Even a failing run keeps a known domain's file, with its old or its right contents |
| `Reconcile.SyncKeepsDir` | src/internal/mgr/mgr.go:608-633 | On a directory in step, a run changes no YAML file whatever fails |
| `Reconcile.SyncIdempotent` | src/internal/mgr/mgr.go:608-633 | A second successful run changes nothing |
| `Reconcile.DelKeepsDir` | src/internal/mgr/mgr.go:505-526 | Del keeps table and directory in step if and only if the row stays, had no domain, or all its files go |
| `Runs.RunsKeepFleet` | src/internal/mgr/mgr.go:240-905 | Over every run of all operations with any call failing anywhere: addresses, indices, ports and blocks stay unique, each container has its row's address, no orphan has a row's |
| `Runs.RunsKeepBlocksDisjoint` | src/internal/mgr/ipv6.go:64-77 | With IPv6 on, in every reachable state no address is in two rows' blocks |
| `Runs.ReachableRulesFunctional` | src/internal/fw/fw.go:79-96 | In every reachable table the users' DNAT rules send each packet one way, in whatever order their files are loaded |
| `Runs.ReachableAllocation` | src/internal/db/user.go:48-98 | In every reachable table the user limit is reported exactly at 200 rows, and an SSH port is always found |
| `Runs.ReachableRulesetExact` | src/internal/fw/fw.go:79-118 | In every reachable state each loaded file renders a well-formed row, and the loaded ruleset sends each packet one way if and only if no two of those rows have one SSH port in different slots |
| `Runs.RunsKeepReferences` | src/internal/db/db.go:36-71 | Traffic and domain rows always belong to user rows |
| `Runs.RunsKeepDomainsNormal` | src/internal/mgr/mgr.go:910-935 | Every bound domain is normalised, in every reachable state |
| `Runs.ReachableElementsUnique` | src/internal/tfx/tfx.go:24-67 | In every reachable table two bound domains declare disjoint Traefik elements |
| `Runs.ReachableBlocksSafe` | src/internal/mgr/ipv6.go:64-224 | In every reachable state each row's block is inside the prefix and the bridge network and, if each Add found a gateway to check, holds no address the bridge could take |
| `RunsExact.RunsKeepRules` | src/internal/mgr/ipv6.go:244-355 | The ndppd rules are exactly the rows' blocks after every operation if and only if each rollback and each Del leaves row and rule together |
| `RunsExact.RunsKeepFiles` | src/internal/fw/fw.go:79-118 | Every nft file renders a row and the loaded ruleset is functional after every operation if and only if each deleted row takes its file with it |
| `RunsExact.RunsKeepStep` | src/internal/fw/fw.go:79-118 | With forwarding on, the loaded rules are exactly those of the rows after every operation if and only if row, file and loaded rules come and go together in each |
| `RunsExact.ReachableRouting` | src/internal/fw/fw.go:79-96 | In every state so reached, in any file order, each user gets TCP on its SSH port at port 22 and TCP and UDP on its 100 ports, and no other packet is forwarded |
| `RunsExact.RunsKeepDir` | src/internal/mgr/mgr.go:910-990 | The Traefik directory renders the domain table after every operation if and only if each failed domain operation is compensated and each Del clears its files |
| `RunsExact.RunsKeepThrottle` | src/internal/mgr/traffic.go:71-150 | With restarts anywhere in the run, the throttle map is the set of limited users after every operation if and only if no throttled user is rebuilt or half deleted and no pass hides a write or, just after a restart, misses a limit it must lift |
| `RunsExact.RunsKeepLimits` | src/internal/mgr/mgr.go:669-754 | A container has the CPU, memory and disk its row says after every operation if and only if no failed update strands a value |
| `RunsExact.LeftoverRun` | src/internal/mgr/mgr.go:508-515 | Add, Del with a file that cannot be removed, Add: a run from the empty panel to a ruleset that sends a port two ways |
| `AddRace.RaceKeepsRowsUnique` | src/internal/db/db.go:36-50 | However several Adds interleave and whatever fails, no two rows share name, index or SSH port |
| `AddRace.RollbackRemovesOnlyOwn` | src/internal/mgr/mgr.go:309-321 | No step of an Add removes a container or row of another Add or from before |
| `AddRace.OnlyLeftoversShare` | src/internal/mgr/mgr.go:240-360 | Whatever fails, if two live containers share an IPv4 after all Adds have ended, a failed Add left one of them |
| `AddRace.TidyRaceSettles` | src/internal/mgr/mgr.go:240-360 | With all-or-nothing launches and working rollbacks, after all Adds: IPv4s pairwise distinct; failed Adds own nothing; successful ones have container and row |
| `AddRaceRuns.LeftoverTakesAddress` | src/internal/lx/lx.go:685-692 | Both hypotheses are needed: with one partial launch, or one failed Add whose rollback cannot delete its container, and every other call working, a successful Add shares its IPv4 with the leftover |
| `AddRace.FileKeptExact` | src/internal/fw/fw.go:98-104 | At any point of any race an Add that has published its rules has its nft file if and only if no Add of the same name has since run the file removal of its rollback |
| `AddRace.SuccessKeepsFile` | src/internal/mgr/mgr.go:345-350 | So after all Adds, a successful one has its file unless another of the same name has failed |
| `AddRaceRuns.NamesakeRemovesFile` | src/internal/mgr/mgr.go:309-317 | With every call working, three Adds, two of one name, can end with a successful one's nft file removed by the rollback of its namesake, whose INSERT was refused |
| `AddRaceRuns.OneNameKeepsFile` | src/internal/mgr/mgr.go:309-350 | The Add of another name is needed: with every call working, any number of Adds of one name on an empty panel never roll back, and a published one has its file |
| `AddRace.SharedBlockNeedsOverlap` | src/internal/mgr/mgr.go:366-395 | Whatever fails, two rows of a race share an IPv6 block only if both were inserted in it by Adds that at some moment had both passed the block check with neither inserted |
| `AddRaceRuns.BlockTwinsBothSucceed` | src/internal/mgr/mgr.go:366-395 | And then they can: with every call working, two names of equal block both get rows |
| `Allocation.NextFreeIdx` | src/internal/db/user.go:48-79 | Both loops compute the draw from the free slots in ascending order |
| `Allocation.PickIdxExact` | src/internal/db/user.go:48-79 | A drawn index is free and in range, every free one can be drawn, the limit error means all 200 are taken |
| `Allocation.LimitExact` | src/internal/db/user.go:48-79 | In a well-formed table the limit error comes exactly at 200 rows |
| `Allocation.AllocSSHPort` | src/internal/mgr/mgr.go:117-141 | 32 random picks then the lowest free port, as the specification function says |
| `Allocation.PickPortExact` | src/internal/mgr/mgr.go:117-141 | Whatever the picks, fewer than 2000 used ports give a free in-range port; the last error is unreachable; the pool error is exact |
| `Allocation.PortsSuffice` | src/internal/db/user.go:83-98 | A well-formed table never runs out of SSH ports |
| `Allocation.ContainerIPInjective` | src/internal/mgr/mgr.go:94-111 | Distinct indices get distinct host addresses .2 to .254 |
| `Allocation.ContainerIPExact` | src/internal/mgr/mgr.go:94-111 | In a /24, slot idx of 1..200 has host number idx + 1; nothing else is accepted |
| `Allocation.PickPortTakes` | src/internal/mgr/mgr.go:117-141 | The first free of the first 32 draws is taken, failing all of them the lowest free port |
| `Nat.OrderIrrelevant` | src/internal/fw/fw.go:79-96 | For rules that agree, the order of files decides no packet |
| `Nat.BlocksTile` | src/internal/cfg/cfg.go:46-66 | The 200 port blocks tile 10000..29999 exactly |
| `Nat.TableFunctional` | src/internal/fw/fw.go:79-96 | Rules rendered from a well-formed table are a partial function from protocol and port to a target |
| `Nat.Routing` | src/internal/fw/fw.go:79-96 | With the files of a well-formed table's rows in any order: TCP to an SSH port goes to port 22 of its container, TCP and UDP to each of a block's 100 ports to the same port, every other packet nowhere |
| `IPv6.AddHostOffset` | src/internal/mgr/ipv6.go:200-212 | The carry loop leaves bytes 0..7 and makes bytes 8..15 the big-endian sum modulo 2^64; no 64-bit overflow |
| `IPv6.BlockInsidePrefix` | src/internal/mgr/ipv6.go:64-77 | Every address of a block is inside the prefix and inside the clamped bridge network |
| `IPv6.BlockLayout` | src/internal/mgr/ipv6.go:64-88 | The block is the prefix with the hash in bytes 10 to 13, in order, and the primary address its host 1 |
| `IPv6.BlocksEqualOrDisjoint` | src/internal/mgr/ipv6.go:64-77 | Blocks are equal exactly when the hashes are, and otherwise disjoint |
| `IPv6.PrimaryInOwnBlockOnly` | src/internal/mgr/ipv6.go:82-88 | block+1 lies in its own block and in no other |
| `IPv6.GatewayInBlock` | src/internal/mgr/ipv6.go:149-195 | A candidate net+k, k < 2^16, lies in a block exactly when that block's hash is zero |
| `IPv6.BridgeGateway` | src/internal/mgr/ipv6.go:149-195 | The search returns the least free net+k, or none |
| `IPv6.GatewaySafe` | src/internal/mgr/ipv6.go:149-224 | The gateway found is free, inside the prefix, and in a block only of hash zero |
| `IPv6.WholeBytes` | src/internal/mgr/mgr.go:389 | Prefix containment, bit by bit as in section 2.3 of RFC 4291, is on whole bytes equality of those bytes |
| `Traffic.SampleAddsAtMostMoved` | src/internal/db/traffic.go:26-55 | Each sample adds at most the bytes moved since the last one, exactly those without a restart |
| `Traffic.PeriodNeverOverCounts` | src/internal/db/traffic.go:26-55 | A period's total never exceeds the bytes moved in it, and without restarts equals them up to the last sample |
| `Traffic.DeltasTelescope` | src/internal/db/traffic.go:26-55 | Over a whole run, months changing anywhere, all deltas together never exceed the bytes moved; without restarts they telescope to last counter minus first |
| `Traffic.RunNeverOverCharges` | src/internal/mgr/traffic.go:24-55 | Over whole-table passes and any number of months, a user is charged at most what moved since the start, or since the first pass that reached it if it had no row; without restarts exactly last counter minus first |
| `Traffic.RowsAreIndependent` | src/internal/mgr/traffic.go:34-55 | Over whole-table passes each row evolves as its own counters and passes say |
| `Traffic.TableNeverOverCounts` | src/internal/mgr/traffic.go:24-55 | Upload plus download charged in a period is at most what the user really moved since it was first listed, through any restarts and missed passes |
| `Traffic.FirstSample` | src/internal/db/traffic.go:37-55 | The first pass that reaches a user charges nothing: its row has the period, zero totals and the counters as baseline |
| `Traffic.FailedReadOverCounts` | src/internal/lx/lx.go:255-265 | A failed state read over-counts by the old baseline: if and only if it was not zero |
| `Traffic.OutOfOrderOverCounts` | src/internal/mgr/traffic.go:17-23 | Two unserialised samplers storing out of order over-count if and only if the earlier reading is smaller and not zero |
| `Traffic.ShouldThrottleExact` | src/internal/mgr/traffic.go:73-78 | A quota of 0 or less never throttles; above, the comparison means "quota reached" for all usages if and only if the quota is below 2^34 GiB |
| `Limiter.LoginLimiter.Allowed` | src/internal/panel/panel.go:45-59 | One attempt: the answer and the new record, for fresh, stale and counting windows |
| `Limiter.LoginLimiter.Prune` | src/internal/panel/panel.go:62-74 | Removes exactly the stale records once the table is full |
| `Limiter.PruneInvisible` | src/internal/panel/panel.go:62-74 | Any number of prunes anywhere changes no answer |
| `Limiter.AtMostTwiceTheLimit` | src/internal/admin/admin.go:156-181 | At most 2·limit attempts of one IP are admitted in any half-open window length, over any chronological history; with both panels' constants (`PANEL`) 10 per minute |
| `Limiter.RefusedOnlyAfterLimit` | src/internal/panel/panel.go:45-59 | An attempt is refused only if its IP has already made limit attempts less than a window ago, over any history of other IPs and sweeps |
| `Audit.AuditTable.AddAuditLog` | src/internal/db/audit.go:25-45 | One insert with its count and prune steps, for each way they can fail |
| `Audit.KeepsNewest` | src/internal/db/audit.go:25-45 | After any history the table is the newest entries in id order: the cap, plus one for each count or prune that failed at the cap |
| `Audit.RetentionExact` | src/internal/db/audit.go:25-45 | When all succeed it is exactly the newest min(n, 5000) |
| `Audit.AuditTable.ListAuditLog` | src/internal/db/audit.go:48-65 | The rows offset.. of the log newest first |
| `Audit.AuditTable.HandleAuditAPI` | src/internal/admin/handlers.go:608-639 | The clamped chunk, and `more` exactly when rows follow it |
| `Audit.AuditTable.ScrollAll` | src/internal/admin/templates/admin_audit.html:115-121 | Following `more` from offset 0 terminates and yields the whole log newest first, no gap or duplicate |
| `Cpu.ParseCPUExact` | src/internal/mgr/cpu.go:25-42 | Errors exactly on meaningless texts; reads a text as what it means if and only if that fits 64 bits |
| `Cpu.ParseCPUOverflows` | src/internal/mgr/cpu.go:25-42 | Two over-long texts that come out as 0.4 cores and as a negative quota, without an error |
| `Cpu.ParseUndoesFormat` | src/internal/mgr/cpu.go:25-65 | Parsing undoes printing on every valid quota |
| `Cpu.SetCPUEnforces` | src/internal/lx/lx.go:400-418 | One SetCPU makes any config enforce the quota and touches no other key |
| `Cpu.LastQuotaWins` | src/internal/lx/lx.go:400-418 | Any mix of whole and fractional changes leaves exactly the last quota in force |
| `Version.ReadParts` | src/internal/ver/ver.go:39-60 | The one-pass loop equals splitting at dots and taking each segment's trailing digits, on all strings |
| `Version.SemVerLT` | src/internal/ver/ver.go:28-37 | The loop decides the lexicographic order of the two readings |
| `Version.PartsOfPrinted` | src/internal/ver/ver.go:39-60 | Reads a, b, c back from any printed version, with or without v |
| `Version.PrintedOrder` | src/internal/ver/ver.go:28-37 | On printed versions the order is lexicographic on the triples |
| `Version.StrictWeakOrder` | src/internal/ver/ver.go:28-37 | The order is a strict weak order on all strings |
| `Version.BlockedExact` | src/internal/ver/ver.go:18-23 | Blocked is exactly "below 0.3.0", and downward closed |
| `Version.SegmentIsZero` | src/internal/ver/ver.go:25-60 | Non-numeric segments are documented as 0; on all strings a segment reads as 0 if and only if the digits it ends in denote a multiple of 2^64 |
| `Version.ReleaseCandidate` | src/internal/ver/ver.go:25-37 | The input that shows it: 0.3.0-rc1 reads as 0.3.1 and ranks above 0.3.0 |
| `Version.OriginBlocked` | src/internal/ver/ver.go:13-23 | Unparseable origins are documented as blocked; any origin is if and only if the numbers its first three segments end in come before 0, 3, 0 |
| `Version.UnparseableAdmitted` | src/internal/ver/ver.go:13-23 | The input that shows it: x9 is unparseable and admitted |

## Left out

- HTTP handlers, templates, cookies, sessions, i18n, the power switch and the config registry: no state the stores above share.
- LXD's REST transport and `lxc exec`: an operation is one transition with an outcome; provisioning and in-container IPv6 setup only succeed or fail.
- Shell scripts, systemd, sysctl, ndppd process control, certificates: foreign calls.
- YAML and nft text: a domain file is (domain, address, PROXY flag), an nft rule (protocol, ports, target). The output-chain rules for connections from the host repeat the prerouting targets and are not listed.
- Turning IPv4 forwarding on and off for existing users, and migrations between schema versions.
- Transient SQLite read errors: a failed lookup is a missing row. A configured prefix that does not parse is not modelled; IPv6 is on with a valid prefix or off.
- A database write, nft reload or file removal that reports an error has had no effect; only LXD calls and the writes of ndppd and Traefik files can err after taking effect. A process dies between operations, not in the middle of one.
- Writes of nft and ndppd files are all or nothing; a truncated file, or a daemon that keeps running on old rules, is not modelled. Sub-directories of the Traefik directory are not modelled.
- The single-process model keys rows by name, which is unique; row ids appear in `AddRace` only. The 64-bit range of stored traffic totals is not modelled below the quota comparison.
- `AddRace` covers name, index, port, IPv6 block, row, container and nft file; ndppd rules, which each process rewrites from the rows it sees, are left to the single-process model.
- Races between quota updates on one device map, and sampling by several processes at once beyond the two-reading case: the code excludes neither, so no invariant is claimed over them.
- `Instance.cpu` is the decoded quota; how LXD's two CPU keys encode it is the subject of `Cpu`.
- ManagerModule.Manager.Add: its body is split over `Complete`, `Register` and `Publish`, and the closure over the created id is a flag.
