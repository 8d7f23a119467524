# Verification model

This Dafny project models the parts of the proxy panel that compute and that keep state, and
proves what they promise. `dafny verify dfyconfig.toml` checks all of it.

- **Route lists** (`Prefixes`, `Canonical`, `Ranges`, `Subtract`, `Normalize`, `Collapse`,
  `Largest`, `SpecialUse`, `SpecialTable`, `Text`, `Addresses`, `Netmasks`, `RouteText`,
  `LineForms`, `ChinaRoutes`, `RouteGuarantees`, `ApnicExample`): from APNIC records or CIDR lines to the China-direct
  route file and back. A prefix is a base and a length (section 3.1 of RFC 4632); its meaning
  is the interval of addresses it covers. The reference definition is the list of maximal
  aligned blocks of an address set; subtraction, tiling and merging are all shown to compute it.
  Most special-use blocks are those of section 2.2.2 of RFC 6890.
- **Traffic** (`Billing`, `Counters`, `Traffic`, `Sessions`, `NodeMetering`, `Metering`, `Rounds`):
  cumulative counters that restart or lose rules or sessions become billing totals and pause
  flags for nodes, users and the project. `NodeMetering` (nodes, rule by rule) and `Metering`
  (users, session by session) run them against an environment that knows the true bytes and
  who paused by hand; `Rounds` runs the samples of all nodes together with the project.
- **Firewall** (`Firewall`, `Tags`, `Enforcement`, `Packets`, `HostForward`): a rule table is driven
  to a desired set of tagged rules, and counters are attributed back to nodes. `Packets` gives the
  words of a rule their meaning: which packets it hits, and what happens to them.
- **Policy** (`Hosts`, `Nodes`, `NodeRules`, `Panel`): the node store keeps listeners, pools and backends
  compatible, and the handlers and the sampling round keep the firewall equal to the pause flags.
- **Logs and schedules** (`Newlines`, `RuntimeOutput`, `Logs`, `LogReading`, `LogRuns`, `LogTie`, `Schedule`):
  draining a runtime's output under a size and rate limit, rotating, tailing and pruning log
  files, and deciding when a refresh is due. `LogRuns` numbers every record, so that what is kept
  can be told from what is only equal to it.

Tables of the database are maps, a firewall chain is a sequence of rules with handles and
counters, files are strings, and the clock, the reader and the files' ages are parameters.
Classes carry the state that the program updates in place; each method is tied to a function of
the old state, and the lemmas are about those functions.

Some statements about the program turned out to need a condition, which the model gives exactly,
each with an input or a run that fails it:

- An `apnic` list is readable from its own file only if enough entries, enough addresses and no
  prefix shorter than 7 are left (`ApnicReread`, `ApnicNotReread`).
- The project's verdict is the edge of its flag except when a quota pause meets a new period and a
  delta that alone reaches the quota (`VerdictIsEdge`, `Rounds.ProjectVerdictNotEdge`).
- "A falling counter counts as raw" is right for rules that restart together. A sum that has lost
  one rule is counted too high exactly when more of it was counted before than has escaped the
  remaining rules since the last sample (`NodeSampleExact`, `RestartNeverOvercounts`,
  `RemovalOvercounts`).
- A start, a new node or an update that a runtime refuses leaves the firewall as it was, or as
  the refused update made it; whether it then matches the flags is decided by the old rules
  (`StartNode`, `PausedStartFails`, `CreateNode`, `UpdateNode`). Pausing, resuming, resetting, stopping
  or restarting the node restores the policy for it; pausing, resuming or resetting the project, or
  the next round, restores it for all.
- Pruning by age keeps the last records of a node exactly when it takes the archives from the
  oldest on, which the ages ensure exactly when older files are strictly older (`RetainedIsEnd`,
  `AgesDecide`, `TickingIsFaithful`, `TieLosesNewest`).
- The store compares listening hosts as texts. That is exact for hosts in canonical form and for no
  others (`CanonicalExact`, `CanonicalDecides`, `ListenersApart`, `TwoSpellings`).

## Model

| member | source | states |
|---|---|---|
| `Prefixes.OverlapByBases` | internal/anyconnect/network.go:335-365 | two containment tests of base addresses decide, in both directions, whether two aligned prefixes share an address |
| `Prefixes.NestedOrApart` | internal/anyconnect/network.go:350-365 | two aligned blocks are nested or share no address, which is why splitting in halves always gets somewhere |
| `Canonical.CanonMembers` | internal/anyconnect/network.go:367-391 | the reference list of an address set holds exactly the aligned blocks inside the set that cannot be doubled and stay inside |
| `Canonical.CanonCovers` | internal/anyconnect/network.go:367-391 | the reference list covers exactly the set, with disjoint blocks in ascending order |
| `Canonical.MaximalCoverIsCanon` | internal/anyconnect/network.go:415-442 | an ascending list of maximal blocks that covers a set is the reference list: two disjoint inputs with the same addresses collapse to the same output |
| `Canonical.CanonMinimal` | internal/anyconnect/network.go:415-442 | no list of CIDR blocks that covers the same addresses is shorter than the reference list |
| `Ranges.NextBlock` | internal/anyconnect/network.go:376-383 | the two doubling and halving loops find the largest aligned block that starts at the position and stays in the range, and its prefix length |
| `Ranges.TileRange` | internal/anyconnect/network.go:373-389 | the loop places ascending, disjoint, maximal blocks that together cover exactly [start, start+count), and ends |
| `Ranges.RangeToPrefixes` | internal/anyconnect/network.go:367-391 | the result is the reference list of the interval; a range that leaves the address space is an error |
| `Ranges.RangeAtMost62` | internal/anyconnect/network.go:367-391 | no range needs more than 62 blocks |
| `Subtract.SubtractIsBlocks` | internal/anyconnect/network.go:350-365 | the recursion that splits on overlap computes the maximal blocks of the set difference |
| `Subtract.SubtractExact` | internal/anyconnect/network.go:350-365 | subtraction is exactly the set difference, as disjoint aligned blocks in ascending order |
| `Subtract.SubtractCount` | internal/anyconnect/network.go:350-365 | taking a /e out of the /p around it leaves e - p blocks |
| `Subtract.FlatCovers` | internal/anyconnect/network.go:335-348 | the fold over the special-use list removes exactly the union of its blocks, whatever their order |
| `Subtract.ExcludePrefixes` | internal/anyconnect/network.go:335-348 | the nested loops equal one subtraction of the whole list, block by block in input order |
| `Normalize.ArrangeSpec` | internal/anyconnect/network.go:393-413 | normalizing gives a list sorted by base and then by length, without duplicates, that has exactly the masked prefixes of the input |
| `Normalize.NormalizePrefixes` | internal/anyconnect/network.go:393-413 | the loop that masks and keeps first occurrences, followed by the sort, computes that list |
| `Normalize.NeighboursDecide` | internal/anyconnect/network.go:238-240 | in a sorted list, comparing neighbours only finds an overlap exactly when some two prefixes overlap |
| `Normalize.CountIsCardinality` | internal/anyconnect/network.go:241-245 | for disjoint prefixes the summed sizes are the number of covered addresses |
| `Collapse.MergeRuns` | internal/anyconnect/network.go:417-431 | the loop that grows the last interval in place keeps the covered addresses; for disjoint input, no two intervals touch |
| `Collapse.SplitRuns` | internal/anyconnect/network.go:432-440 | every interval is re-split into its reference blocks and no interval leaves the address space |
| `Collapse.CollapsePrefixes` | internal/anyconnect/network.go:415-442 | collapsing keeps the covered addresses for every input, and gives the reference list when the input blocks are disjoint |
| `Collapse.SeparatedIsCanon` | internal/anyconnect/network.go:415-442 | the reference blocks of separated intervals are the reference blocks of their union |
| `Collapse.CanonIdempotent` | internal/anyconnect/network.go:415-442 | collapsing a collapsed list changes nothing |
| `Largest.LargestPrefixes` | internal/anyconnect/network.go:444-457 | on disjoint ascending prefixes the result is an ascending sub-list as long as the limit allows, and no choice of at most that many of them covers more addresses |
| `Largest.LargestIsPart` | internal/anyconnect/network.go:444-457 | the limited list is a sorted sub-list of the input, as long as the limit allows |
| `Largest.Exchange` | internal/anyconnect/network.go:444-457 | exchange argument: no choice of at most limit blocks has a larger total than the first limit blocks by size |
| `Largest.LargestOptimal` | internal/anyconnect/network.go:444-457 | among all sub-lists of at most limit prefixes of a disjoint list, the result covers the most addresses |
| `Largest.LargestFirstKept` | internal/anyconnect/network.go:444-457 | what is left out is smaller than everything kept, or as large and at a higher address |
| `SpecialUse.PublicIsFree` | internal/anyconnect/network.go:112-123 | an IPv4 address is public exactly when no special-use block covers it; the library tests that come first refuse nothing more |
| `SpecialTable.PublicOctets` | internal/anyconnect/network.go:35-56 | an address a.b.c.d is public exactly when its octets lie in none of the fifteen special-purpose blocks, which are written out by their octets |
| `Addresses.AddrRoundTrip` | internal/anyconnect/network.go:459-470 | every IPv4 address survives printing in dotted form and parsing |
| `Addresses.AddrExact` | internal/anyconnect/network.go:324-327 | a text is read as an address exactly when it is the dotted form of that address |
| `Netmasks.MaskBit` | internal/anyconnect/network.go:459-470 | bit i of the netmask of a length, counted from the top of the 32, is 1 if and only if i is below the length |
| `Netmasks.MaskRoundTrip` | internal/anyconnect/network.go:315-333 | the netmask of every prefix length is read back as that length |
| `Netmasks.NetmaskAccepted` | internal/anyconnect/network.go:315-333 | a mask is accepted if and only if no one follows a zero among its 32 bits, and its length is then the number of its ones |
| `Netmasks.PrefixExact` | internal/anyconnect/network.go:315-320 | a text without a dotted mask is read as a prefix exactly when it is the dotted address, a slash and the decimal length |
| `Netmasks.MappedMask` | internal/anyconnect/network.go:324-327 | a netmask written as an IPv4-mapped IPv6 address is read as the dotted netmask itself |
| `RouteText.ParseCIDRList` | internal/anyconnect/network.go:285-313 | the scanning loop reads the blocks of all lines in order, or the error of the first bad line |
| `LineForms.WrittenLine` | internal/anyconnect/network.go:285-313 | a block written with its length or with its netmask is read as that block, whatever blanks, dash, quotes or byte order mark surround it, if it is aligned and public, and is an error otherwise |
| `LineForms.NoRouteLine` | internal/anyconnect/network.go:298-306 | the same after "no-route", any blanks and an equals sign |
| `LineForms.SkippedLines` | internal/anyconnect/network.go:291-297 | comments, "payload:" and empty items are skipped |
| `RouteText.ParseAPNIC` | internal/anyconnect/network.go:255-283 | the scanning loop tiles the range of every Chinese IPv4 record in order, or gives the first error |
| `LineForms.RecordLine` | internal/anyconnect/network.go:261-267 | a record is read exactly when its country is CN in any case, its type ipv4, its status allocated or assigned, and seven fields are there; other lines are skipped |
| `LineForms.RecordRange` | internal/anyconnect/network.go:268-279 | such a record gives the reference blocks of the count of addresses from its start, and is an error when they leave the address space |
| `LineForms.LongLine` | internal/anyconnect/network.go:256-258 | a line of a mebibyte or more is an error |
| `LineForms.ByteLengthIs` | internal/anyconnect/network.go:256-257 | the length of a line is counted in UTF-8 bytes: those of its parts together, and for a character the least number of bytes that holds its bits |
| `RouteText.RenderNoRoutes` | internal/anyconnect/network.go:459-470 | one no-route line with a netmask per prefix, in order |
| `LineForms.RouteLineSays` | internal/anyconnect/network.go:459-470 | the line of a block is "no-route = ", its address, a slash and the address whose first bits, as many as the length, are ones |
| `RouteText.RenderRoundTrip` | internal/anyconnect/network.go:285-313 | reading a rendered route file gives back the identical list |
| `ChinaRoutes.ParseChinaCIDRs` | internal/anyconnect/network.go:204-253 | the whole pipeline computes the specified list or fails with the first failing check |
| `ChinaRoutes.Sanitize` | internal/anyconnect/network.go:218-252 | checks, subtraction, normalizing, neighbour comparison, address count, merging and limit, in the order in which they can fail |
| `ChinaRoutes.CheckPrefixes` | internal/anyconnect/network.go:228-242 | the re-check loop counts the addresses; on blocks that passed the subtraction it can only report an overlap |
| `ChinaRoutes.CleanedFacts` | internal/anyconnect/network.go:223-237 | after the subtraction every block is at least a /7, public and clear of special-use blocks, and exactly the special-use addresses are gone, so the later checks of a single block never reject |
| `RouteGuarantees.RoutesSound` | internal/anyconnect/network.go:204-253 | every successful list is sorted, pairwise disjoint, at most 1200 long and free of special-use addresses, and comes from 100 or more blocks of ten million to a thousand million addresses; cidr keeps exactly the input minus special use, apnic adds no address |
| `RouteGuarantees.ApnicBest` | internal/anyconnect/network.go:246-248 | no list of at most 1200 CIDR blocks that adds no address covers more addresses than the apnic result |
| `RouteGuarantees.CidrRoundTrip` | internal/anyconnect/assets.go:61-68 | a list accepted in the cidr format is accepted again, unchanged, from the file written for it |
| `RouteGuarantees.ApnicReread` | internal/anyconnect/assets.go:61-68 | the file of an apnic list is accepted again if and only if it has 100 entries, ten million addresses and no prefix shorter than 7 |
| `ApnicExample.ApnicNotReread` | internal/anyconnect/assets.go:61-68 | counterexample: 256 records that merge into 30.0.0.0/8 give an accepted list whose own file is refused |
| `Billing.PeriodIsLatest` | internal/traffic/store.go:445-459 | for every reset day from 1 to 28 the billing period is the latest valid date with that day of the month whose midnight is not after now |
| `Billing.OtherResetDay` | internal/traffic/store.go:445-449 | any other reset day counts as the first of the month |
| `Billing.PeriodMonotone` | internal/traffic/store.go:445-459 | a later moment never has an earlier period |
| `Billing.PeriodChanges` | internal/traffic/store.go:445-459 | for every reset day from 1 to 28 the period differs between two moments if and only if a midnight of that day of the month lies between them |
| `Billing.RollsOncePerPeriod` | internal/traffic/store.go:317-330 | with a fixed reset day and a clock that does not run back, no period is entered twice |
| `Counters.ApplySample` | internal/traffic/store.go:262-282 | the step-by-step updates equal one function: a new period starts from zero, a manual pause stays, the quota alone decides the rest |
| `Counters.SampledFlags` | internal/traffic/store.go:262-282 | sampling never clears a manual pause, and afterwards paused holds exactly for a manual pause or a positive quota that upload and download together reach |
| `Counters.VerdictIsEdge` | internal/traffic/store.go:262-282 | the verdict is the edge of the flag if and only if it is not the case that a quota pause meets a new period and a delta that alone reaches the quota |
| `Counters.EmptyVerdictKeepsFlag` | internal/api/server.go:848-858 | an empty verdict always means that the pause flag is unchanged, which is what the quota handler relies on |
| `Counters.NodeVerdictIsEdge` | internal/traffic/store.go:317-353 | node and user verdicts are exact edges of the flag |
| `Traffic.Store.AddNode` | internal/nodes/store.go:215-218 | a new node has a zero counter in a period that no sample names |
| `Traffic.Store.Sample` | internal/traffic/store.go:298-373 | one sample replaces the row and the reading as specified, or changes nothing on an error |
| `Traffic.Store.SampleUser` | internal/traffic/store.go:375-443 | the same for a user, whose missing row is created and for whom a sum that falls adds nothing |
| `Traffic.Store.SampleProject` | internal/traffic/store.go:246-296 | the same for the project, which is handed deltas |
| `Traffic.Store.GetUser` | internal/traffic/store.go:116-130 | a missing user row is created with zero totals |
| `Traffic.Store.SetUserQuota` | internal/traffic/store.go:132-144 | a user quota takes effect at once: paused if and only if the totals reach it |
| `Traffic.Store.ResetUser` | internal/traffic/store.go:146-167 | totals and flags are cleared and the reading forgotten |
| `Traffic.Store.SetQuota` | internal/traffic/store.go:169-178 | a node quota changes quota and reset day and no flag |
| `Traffic.Store.SetProjectQuota` | internal/traffic/store.go:180-189 | the same for the project |
| `Traffic.Store.PauseNode` | internal/traffic/store.go:191-197 | a manual action sets the flag and makes it manual |
| `Traffic.Store.PauseProject` | internal/traffic/store.go:199-205 | the same for the project |
| `Traffic.Store.Reset` | internal/traffic/store.go:207-230 | totals and flags are cleared and the reading forgotten, so that the next sample is a baseline |
| `Traffic.Store.ResetProject` | internal/traffic/store.go:232-244 | totals and flags of the project are cleared |
| `Sessions.ListUserTraffic` | internal/anyconnect/traffic.go:46-89 | an account is listed exactly when it has a session under a name other than empty and "(none)", with the sums of upload and of download over its sessions; one unreadable counter fails the listing |
| `NodeMetering.NodeSampleExact` | internal/traffic/store.go:317-344 | in every state that a run of traffic, added, removed and emptied rules, samples, pauses, resets and quota edits reaches, a sample accepts at most the bytes that passed since the last one if and only if it starts new totals or is not fooled: the raw value has not fallen, or no more of it was counted before than has escaped the remaining rules since; it accepts exactly those bytes when no rule went, and nothing when it starts new totals |
| `NodeMetering.NodeNeverOvercounts` | internal/traffic/store.go:298-370 | in every such run in which no sample is fooled, period totals are at most the true bytes since their baseline, and equal the bytes up to the last sample when no rule went and no byte missed the rules |
| `NodeMetering.RestartNeverOvercounts` | internal/traffic/store.go:331-344 | rules that only ever go all together, as when the table is flushed or the port changes, never fool a sample, so the totals never exceed the true bytes |
| `NodeMetering.RemovalOvercounts` | internal/traffic/store.go:331-344 | counterexample: a run from every fresh node in which one of two rules is removed between two samples counts 100 bytes although none has passed |
| `NodeMetering.NodeRunFlags` | internal/traffic/store.go:345-353 | in every run the stored flags tell exactly whether a hand paused the node, and quota, reset day and period are those last set |
| `NodeMetering.PausedAfterSample` | internal/traffic/store.go:345-353 | in every run, right after a sample a node is paused if and only if manually paused or at a positive quota, and the sample leaves the manual pause alone |
| `NodeMetering.ReplayReconstructs` | internal/traffic/store.go:317-353 | in every run, verdicts, manual actions and resets replayed together give the stored pause flag |
| `Metering.UserReplayReconstructs` | internal/traffic/store.go:397-427 | the same for users, with quota edits in place of manual actions |
| `Metering.UserNeverOvercounts` | internal/traffic/store.go:375-443 | in every run of sessions that appear, grow and vanish, user totals are at most the bytes up to the last sample, and equal them when no session ended since the baseline; the user is paused if and only if the quota in force is reached |
| `Metering.UserSampleExact` | internal/traffic/store.go:397-427 | in every reachable state a sample accepts nothing when it starts new totals, and otherwise exactly the bytes that passed since the last sample less those that ended sessions took with them, or nothing when they took more |
| `Rounds.RoundPointwise` | internal/agent/manager.go:578-599 | sampling distinct nodes one after the other, in any order, samples each of them once from the state before the round |
| `Rounds.SampleNodes` | internal/agent/manager.go:578-599 | the loop samples every active node once and adds up exactly the accepted deltas |
| `Rounds.ProjectConserves` | internal/traffic/store.go:246-294 | in every run of rounds over stored nodes, node and project quota edits, manual actions and resets, the project total is the sum of the deltas that the node samples of the same run accepted since the start, the last project reset or the last change of period |
| `Rounds.ProjectFlags` | internal/traffic/store.go:246-294 | in every run the stored flags tell whether a hand paused the project, and after every round it is paused if and only if manually paused or at the positive quota last set |
| `Rounds.ProjectVerdictNotEdge` | internal/traffic/store.go:246-296 | counterexample: a run from a new store with one node, with rounds in July and August, in which the project sampler reports a pause of a project that stays paused |
| `Tags.NodesApart` | internal/firewall/firewall.go:66-71 | no comment lies under the prefixes of two nodes with colon-free ids |
| `Tags.TrafficTagParts` | internal/firewall/firewall.go:400-424 | an accounting tag splits into the six parts the parser expects, with the id and the direction in place |
| `Firewall.SyncTagged` | internal/firewall/firewall.go:479-502 | exactly one rule per desired tag remains under the prefix and none for another tag; the first rule of a tag keeps its handle and counter, nothing outside the prefix changes, and a second run changes nothing |
| `Firewall.DeleteOthers` | internal/firewall/firewall.go:484-493 | the deleting loop, by handle, leaves the first rule of every wanted tag and everything outside the prefix |
| `Firewall.AddMissing` | internal/firewall/firewall.go:494-500 | the adding loop appends one new rule for every wanted tag that had none |
| `Firewall.SyncedFromFacts` | internal/firewall/firewall.go:479-502 | whatever the rules before, what the two loops leave is in sync, and equal to the input if that was in sync |
| `Firewall.ContinuedBytes` | internal/firewall/firewall.go:479-502 | the bytes under a prefix after a sync are those of the surviving rules before it |
| `Enforcement.DeleteListed` | internal/firewall/firewall.go:504-517 | deletion by handle removes exactly the listed rules that are to go |
| `Enforcement.SetBlocked` | internal/firewall/firewall.go:60-84 | a valid request leaves exactly the blocking rules of the node, removes its legacy rule and touches no accounting rule and no other node; every rule with a tag still has the command of that tag |
| `Enforcement.BlockedRejects` | internal/firewall/firewall.go:74-83 | blocked means that every network of the node is rejected on its port, and not blocked that no rule lies under its blocking prefix |
| `Packets.BlockingHits` | internal/firewall/firewall.go:74-83 | the blocking rule hits a packet if and only if it comes in, in that protocol, for that port, and rejects it |
| `Enforcement.EnsureDirection` | internal/firewall/firewall.go:96-113 | one direction of a node: rules in place keep handle and bytes, missing ones start at zero, and a chain that is in sync is left as it is |
| `Enforcement.EnsureAccounting` | internal/firewall/firewall.go:86-115 | both chains count the current port and networks of the node, and its counters go on: rules in place keep handle and bytes, new ones start at zero, and chains that are in place are left as they are; blocking rules and other nodes are untouched, and every rule with a tag has the command of that tag |
| `Packets.CountingHits` | internal/firewall/firewall.go:96-113 | a counting rule hits a packet if and only if it comes in for the port, or goes out from it, in that protocol and not on the loopback interface, and it only counts |
| `Packets.CountedOnce` | internal/firewall/firewall.go:86-115 | with the accounting rules in place, each such packet hits exactly one rule of its node and direction |
| `Enforcement.CleanupUnknown` | internal/firewall/firewall.go:339-361 | the rules that remain are those that are not accounting rules of an unknown node |
| `Enforcement.CleanupKeeps` | internal/firewall/firewall.go:339-361 | blocking rules and the rules of active nodes survive a cleanup |
| `Enforcement.CleanupComplete` | internal/firewall/firewall.go:339-361 | after a cleanup every accounting rule belongs to an active node |
| `Enforcement.ParseAccounting` | internal/firewall/firewall.go:400-427 | every byte of an accounting rule is added to the node and the direction named in its comment |
| `Enforcement.AttributionExact` | internal/firewall/firewall.go:400-427 | with the panel tags in place, a node is credited with exactly the bytes of the rules under its own prefix |
| `Enforcement.MeasuredSurviving` | internal/agent/manager.go:555-577 | after both chains have been put in place, the parser measures for a node exactly what its surviving rules had counted before |
| `HostForward.RemoveNode` | internal/firewall/firewall.go:259-292 | deleting by line number from the highest down removes exactly the matching rules and keeps the others in order |
| `HostForward.RemovalIs` | internal/firewall/firewall.go:259-292 | a rule whose text contains the prefix of the node is removed and any other stays, whatever rules stand around it |
| `HostForward.CommentsApart` | internal/firewall/firewall.go:214-226 | the comment of a forwarding rule contains the prefix of its own node and of no other |
| `Hosts.SpelledRoundTrip` | internal/nodes/validate.go:79-81 | every IPv4 and IPv6 address survives printing, with the longest run of zero groups abbreviated, and parsing |
| `Hosts.OverlapSound` | internal/nodes/store.go:379-379 | hosts whose texts overlap for the store have overlapping addresses |
| `Hosts.CanonicalExact` | internal/nodes/store.go:379-379 | for hosts in canonical form the test on the texts is the test on the addresses |
| `Hosts.CanonicalDecides` | internal/nodes/store.go:379-379 | a valid host is in canonical form if and only if the test on the texts agrees with the one on the addresses for it and every canonical host |
| `Hosts.FullSlips` | internal/nodes/store.go:379-379 | counterexample: an IPv6 address with two zero groups side by side, in full and abbreviated, is one address and two hosts that do not overlap |
| `Hosts.Loopback` | internal/nodes/store.go:379-379 | an instance: ::1 and its full spelling |
| `Nodes.SharedProtocols` | internal/nodes/store.go:419-449 | two nodes share no protocol if and only if one is SS-2022 in udp_only and the other takes no UDP: Snell, ShadowTLS, AnyConnect without UDP, and SS-2022 in tcp_only |
| `Nodes.ListenersApart` | internal/nodes/store.go:366-389 | in a sound store whose hosts are in canonical form no two nodes share a port, a protocol and an address |
| `Nodes.TwoSpellings` | internal/nodes/store.go:366-389 | counterexample: the store takes two nodes on one port of one IPv6 address written in two ways |
| `Nodes.PoolTestExact` | internal/nodes/store.go:394-416 | two base-containment tests decide exactly whether two VPN pools share an address |
| `NodeRules.PoolExact` | internal/nodes/validate.go:125-129 | a pool is valid exactly when it is the dotted base of an aligned private block, a slash and a decimal length from 16 to 29 |
| `NodeRules.PrivateOctets` | internal/nodes/validate.go:125-129 | private are the addresses of 10, 172.16 to 172.31 and 192.168 |
| `NodeRules.NodeIdIs` | internal/nodes/store.go:150-166 | an id is a letter or a digit and up to 127 more letters, digits, dots, underscores and hyphens |
| `NodeRules.NormalizeFills` | internal/nodes/validate.go:23-35 | a request without a host is one for all IPv4 addresses, an AnyConnect request without a pool gets 192.168.144.0/24, nothing else is filled in, and filling in twice changes nothing |
| `NodeRules.StoredFields` | internal/nodes/store.go:167-200 | the stored node has the port, the backend and the configuration of the filled-in request; a change keeps kind and desired state |
| `Nodes.PutKeepsSound` | internal/nodes/store.go:366-417 | a node that passes the conflict test can be stored without breaking ports, pools or backends of any other |
| `NodeRules.SoundStore` | internal/nodes/store.go:366-417 | in a sound store every node is well made, and no two nodes meet on port, host and TCP, on port, host and UDP, or in an address of their pools |
| `Nodes.Store.CheckConflict` | internal/nodes/store.go:366-417 | no problem is reported if and only if no other node collides on port, host and protocol or overlaps in its pool; port conflicts come first |
| `Nodes.Store.Admit` | internal/nodes/store.go:167-188 | validation, conflict check and backend check admit a request exactly when it is valid, in the way of no other node and, for ShadowTLS, backed by a live Snell or SS-2022 node |
| `NodeRules.AdmittedExactly` | internal/nodes/store.go:167-223 | a request is taken exactly when its fields are valid, no stored node is in its way in that sense, and a ShadowTLS node names a stored Snell or SS-2022 node |
| `NodeRules.BothModesConflict` | internal/nodes/store.go:379-381 | an SS-2022 node with TCP and UDP keeps one with UDP only off its port and host |
| `Nodes.Store.CreateWithID` | internal/nodes/store.go:167-223 | keeps ports free, pools disjoint and ShadowTLS backends live; succeeds exactly under the listed checks and otherwise changes nothing |
| `Nodes.Store.Update` | internal/nodes/store.go:254-323 | the same for a changed node, which is compared with every node but itself |
| `Nodes.RollbackRestores` | internal/api/server.go:392-394 | after any change of a node the store takes the old values back if and only if their other fields still pass the checks, and then it is the store from before |
| `Nodes.Store.Delete` | internal/nodes/store.go:325-334 | keeps the invariant: a node that is the backend of another is refused |
| `Nodes.Store.SetDesired` | internal/nodes/store.go:336-349 | keeps the invariant and changes only the desired state |
| `Panel.NetworksListen` | internal/agent/manager.go:860-879 | for every complete node a network is blocked and counted if and only if the node listens in it |
| `Panel.Panel.SampleTraffic` | internal/agent/manager.go:544-621 | from any state, an error-free round leaves blocked = node paused or project paused for every public running node; each reading is what the surviving rules of the node had counted before the round, the counters go on, every active node is sampled once and the accepted deltas are added to the project |
| `Panel.Panel.SetProjectBlocked` | internal/agent/manager.go:625-649 | every public running node is blocked exactly when the given flag or its own says so |
| `Panel.Panel.AgentSetBlocked` | internal/agent/server.go:82-94 | blocks one node as told and leaves the rules of all others alone |
| `Panel.Panel.SyncPolicy` | internal/api/server.go:502-517 | from any state, establishes the policy for one node from its stored flags and keeps it for the others |
| `Panel.Panel.PolicyRejects` | internal/agent/manager.go:544-621 | the policy for a public running node means that, when a flag says so, every packet that comes in for its port in a protocol in which it listens is rejected, and that nothing blocks it otherwise |
| `Panel.Panel.RoundCounts` | internal/agent/manager.go:555-577 | after a round every packet of a public running node, in any protocol in which it listens, hits exactly one counter of the node in its direction |
| `Panel.Panel.PolicyKept` | internal/api/server.go:789-834 | an action that establishes the policy for its node and keeps it for the others keeps the policy as a whole |
| `Panel.Panel.TrafficAction` | internal/api/server.go:789-816 | from any state, pause and resume establish the policy for the node and keep it for the others, also when the store fails after the firewall changed |
| `Panel.Panel.ResetTraffic` | internal/api/server.go:817-834 | from any state, a reset clears the counter, establishes the policy for the node and keeps it for the others |
| `Panel.Panel.SetProjectQuota` | internal/api/server.go:836-861 | a quota edit keeps the policy for every node for which it held, although an empty verdict leaves the firewall alone, and establishes it for all when the flag changes |
| `Panel.Panel.ProjectTrafficAction` | internal/api/server.go:869-891 | from any state, pausing and resuming the project establish the policy for every node, also when the store fails afterwards |
| `Panel.Panel.ResetProjectTraffic` | internal/api/server.go:892-902 | from any state, resetting the project establishes the policy for every node |
| `Panel.Panel.StartNode` | internal/api/server.go:470-500 | from any state, a start establishes the policy for the node; when the process does not start, the desired state is stored and the policy holds for the node if and only if it is not public or the rules are already those of its flags; the others keep it |
| `Panel.Panel.PausedStartFails` | internal/api/server.go:470-500 | counterexample: from every state, pausing a public node, stopping it and a failed start leave it desired running, paused and not blocked |
| `Panel.Panel.StopNode` | internal/api/server.go:470-500 | stopping a node removes its blocking rules; the policy holds for it afterwards and is kept for the others, also when the process does not obey |
| `Panel.Panel.RestartNode` | internal/api/server.go:470-500 | a restart establishes the policy for the node and keeps it for the others; a refused one changes nothing |
| `Panel.Panel.SetNodeQuota` | internal/api/server.go:772-786 | a quota edit of a node keeps the policy wherever it held, as no flag changes |
| `Panel.Panel.CreateNode` | internal/api/server.go:308-335 | a new node and its zero counter are stored together; the policy holds for it if and only if its configuration was applied, it is not public, or the rules are already those of its flags; the others keep it |
| `Panel.Panel.UpdateNode` | internal/api/server.go:338-410 | an accepted change gives exactly the new node and the policy for it; a change that the node or a dependent node refuses is taken back, with the exact condition for the policy to hold for the node afterwards; the others keep it |
| `Panel.Panel.DeleteNode` | internal/api/server.go:425-441 | from any state, deleting keeps the policy for the others and establishes it for a node that is still a backend and stays |
| `Panel.Panel.ReadCounters` | internal/agent/manager.go:555-577 | accounting rules are in place for every active node, and each reading is what the surviving rules of the node had counted before the call |
| `Newlines.LinesCut` | internal/agent/runtime_output.go:42-53 | the lines are the stream, cut after every newline |
| `Newlines.LinesUnique` | internal/agent/runtime_output.go:42-53 | no other cut into whole lines gives the same stream |
| `RuntimeOutput.NextChunk` | internal/agent/runtime_output.go:41-43 | what the buffered reader hands out: up to a newline, a full buffer of 16 KiB, or the rest |
| `RuntimeOutput.TakeLine` | internal/agent/runtime_output.go:54-71 | the in-place updates of window and counts are one step of the limiter |
| `RuntimeOutput.Capture` | internal/agent/runtime_output.go:25-80 | the loop over chunks leaves nothing of the stream unread, logging or not, and writes what a limiter fed with whole lines writes, however the reader chunks or ends |
| `RuntimeOutput.ExpectedAccounts` | internal/agent/runtime_output.go:33-38 | with logging on, the log accounts for every line in order: an entry shows the next line or stands for as many lines as it counts |
| `RuntimeOutput.LinesConserved` | internal/agent/runtime_output.go:33-38 | lines in the stream = lines written + all reported omissions |
| `RuntimeOutput.RateBounded` | internal/agent/runtime_output.go:55-70 | under a clock that does not run back, at most 20 lines are written in a window and at most 40 in any second |
| `RuntimeOutput.OmittedOnlyWhenFull` | internal/agent/runtime_output.go:59-70 | a line is omitted only when 20 lines were written less than a second before it |
| `RuntimeOutput.ShownIsWritten` | internal/agent/runtime_output.go:59-66 | the lines counted by the rate are the lines shown in the log |
| `RuntimeOutput.KeptIsPrefix` | internal/agent/runtime_output.go:44-66 | what is shown is a prefix of at most 16 KiB, all of the line up to its line end unless the line with its newline is longer, and flagged exactly then |
| `RuntimeOutput.FailureReported` | internal/agent/runtime_output.go:72-78 | a failed read is reported once, exactly when logging is on, after the last line and before the last omission |
| `RuntimeOutput.Silent` | internal/agent/runtime_output.go:58-60 | with logging off throughout, nothing is written |
| `Logs.LogDirectory.AppendLog` | internal/agent/manager.go:774-796 | rotation by renaming when the current file is over its limit, then one record is appended; nothing happens with logging off |
| `LogReading.RecordIs` | internal/agent/manager.go:792-794 | a record of one line is the time, a blank, the line and a newline, and is read back as one text |
| `LogReading.ReturnsGo` | internal/agent/manager.go:793-793 | every carriage return of a line goes and everything else stays |
| `LogReading.AppendedMoves` | internal/agent/manager.go:780-795 | up to a quarter of the budget, at least 64 KiB and at most 2 MiB, the record goes to the end of the current file; beyond it the files first move up by one; no other node is touched |
| `LogReading.AppendedSize` | internal/agent/manager.go:780-795 | the current file never outgrows that bound by more than the last record |
| `LogRuns.RunBooks` | internal/agent/manager.go:774-854 | in every run each file is the text of the numbered records that its book lists, at least one |
| `LogRuns.AppendFaithful` | internal/agent/manager.go:774-796 | an append, with or without a rotation, keeps the numbers that are retained the last ones, without a gap |
| `Logs.LogDirectory.MaintainLogs` | internal/agent/manager.go:800-854 | removes the shortest oldest-first prefix of the files that meets the limit, and reports what is left |
| `Logs.RemovedOldest` | internal/agent/manager.go:837-852 | no file that is gone is newer than one that is left, and the rest is unchanged |
| `LogRuns.PruneFaithful` | internal/agent/manager.go:837-852 | the numbers that a pruning leaves are the last ones, without a gap, if and only if the pruning takes the archives of the node from the oldest on |
| `LogRuns.RetainedIsEnd` | internal/agent/manager.go:774-854 | in every run of appends and prunings, the numbers of the retained records have always been consecutive up to the last one if and only if every pruning took the archives of the node from the oldest on |
| `LogRuns.FaithfulText` | internal/agent/manager.go:774-854 | archive 2 ++ archive 1 ++ current is then the end of everything appended for the node |
| `LogRuns.AgesDecide` | internal/agent/manager.go:837-852 | every limit and every order by age prune a node in that way if and only if its older files are strictly older |
| `LogRuns.TickingIsFaithful` | internal/agent/manager.go:774-854 | when time passes between two events, the retained text is always the end of everything appended, for every node |
| `LogTie.TieLosesNewest` | internal/agent/manager.go:774-854 | counterexample: under the smallest limit, with records of 16 KiB, two different records of a node at one moment with a rotation between them, and a second node that fills the rest, an order by age removes the newest record and keeps the one before it, so that the retained text is not the end |
| `Logs.LogDirectory.Logs` | internal/agent/manager.go:400-448 | reads archives before the current file, keeps the last lines, adds the sizes, takes the newest time, and fails on a line that exceeds the scanner buffer |
| `Logs.LastAppend` | internal/agent/manager.go:430-434 | dropping the first line whenever there are too many keeps exactly the last ones |
| `Logs.TailOfHistory` | internal/agent/manager.go:400-448 | the tail is the last lines of everything ever appended, as many as asked for or as are retained; a tail outside 1 to 1000 counts as 200 |
| `LogReading.LastIsAppended` | internal/agent/manager.go:400-448 | after an append, the last line that a reader sees, whatever tail is asked for, is the appended line after its time |
| `LogReading.LineTextIs` | internal/agent/manager.go:428-430 | a line is reported without its newline and one carriage return before it |
| `LogReading.RefusedExactly` | internal/agent/manager.go:426-440 | reading fails if and only if some line of the files of the node has a mebibyte or more before its newline |
| `Schedule.ValidAtParses` | internal/anyconnect/assets.go:264-272 | every time of day hh:mm that validation accepts parses to that hour, below 24, and that minute, below 60 |
| `Schedule.SlotIs` | internal/anyconnect/assets.go:273-285 | a slot of the plan hh:mm is a moment hh hours and mm minutes into a local day, on the weekday counted from a Sunday if the plan is weekly |
| `Schedule.LatestSlotIs` | internal/anyconnect/assets.go:273-285 | the computed moment is a slot of the plan, has come, and no slot that has come is later |
| `Schedule.DueIffSlotMissed` | internal/anyconnect/assets.go:257-287 | due holds if and only if the last attempt did not fail within half an hour, and there was no success yet or some slot s satisfies last success < s <= now |
| `Schedule.OncePerSlot` | internal/anyconnect/assets.go:216-255 | in every run, with failures and refreshes by hand in between, the scheduler refreshes successfully at most once per slot and in the order of the slots |
| `Schedule.BackoffHolds` | internal/anyconnect/assets.go:216-262 | in every run, within half an hour after the start of a failed attempt the scheduler does not try again |

## Left out

- IPv6: the six IPv6 entries of the special-use list and IPv6 addresses in route lists, which parsing rejects.
- Ranges.RangeToPrefixes: the overflow of start plus count in 64 bits, which no record within the accepted counts reaches.
- RouteText.ParseCIDRList: invalid UTF-8 in the input.
- Normalize.NormalizePrefixes: sorting is by insertion; the order of equal elements, which the library leaves open, does not matter to the result.
- Byte totals are mathematical integers; overflow of 64-bit totals is not modelled.
- Sessions.ListUserTraffic: the order of the returned list and the parsing of counters from JSON; a row comes with its counters read or unreadable.
- Traffic.Store.SampleUser: a failure between creating the missing row and writing the sample; database errors in general.
- Panel.Panel.SampleTraffic: rounds in which a step fails; rounds are one step with respect to the handlers, as no interleaving of goroutines is modelled.
- Panel.Panel.StartNode: the process supervisor; whether a process obeys is a parameter.
- Panel.Panel.UpdateNode: the probe for a free port before a node is created or changed, which only refuses; whether a runtime takes its configuration, and whether the fields outside the model still pass the checks when a change is taken back, are parameters.
- Panel.Panel.SyncPolicy: the result of blocking is ignored, as the handler does.
- Nodes.Store.CreateWithID: the fields that take part in no conflict are one boolean that tells whether their checks pass; secrets, revisions and audit records.
- Node ids are those that the id pattern accepts; they contain no colon.
- Hosts.ParseIP: characters of a host are those of its text; whether the operating system lets two listeners share an address of different families is not modelled, as the store takes either wildcard for all addresses.
- The migration of the default Snell listener, which checks another port than the node's own.
- Enforcement.ParseAccounting: JSON decoding; a rule comes with its comment and its byte count.
- HostForward.RemoveNode: a listed line is its rule text; header lines of the listing and lines whose number cannot be read contribute nothing.
- RuntimeOutput.Capture: redaction and the notices added to the text; whether logging is on is asked once per line.
- RuntimeOutput.NextChunk: a read that makes no progress is a failed read.
- Logs.LogDirectory.AppendLog: failures to rename or open a file, and file permissions.
- LogRuns.RetainedIsEnd: the order of files of equal age is any order by age; which one the sorting routine gives is open.
- Logs.LogDirectory.Logs: characters stand for bytes.
- Schedule.LatestSlotIs: zones with daylight saving, where days differ in length.
- The loop over nodes that collects which assets changed, which only repeats the decision of one node.
- HTTP, RPC, SQL, downloads, TLS and PEM handling, client configuration, backups, settings and the user interface.
