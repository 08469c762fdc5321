# DelftClaw, modelled and proved

DelftClaw agents run a community without a treasurer. Every agent keeps its own append-only signed
log, pulls the logs of its peers, and replays the union into a community state: who is a member, what
the treasury holds, which seedboxes were proposed and provisioned. This project models that machinery
in Dafny and proves what it promises, over every input, every stream of entries and every run.

| file | what it models |
|---|---|
| `Entries`, `Ordering`, `Collections` | log entries, the replay sort key, Python string order, the stable sort |
| `CommunityLedger` | the replayed state machine: validators, step, fold, and the imperative replay |
| `LedgerInvariants` | conservation, alternation, the floor-mean cap and the growth bound, for every stream |
| `ReplayOrder` | order and multiplicity independence, its exact limit, finality and retraction |
| `SignedLogs` | an agent's chain and the indexed HTTP read side |
| `PeerLogs` | the receiver's cache of foreign entries and its indexes |
| `PullSync`, `PullDriver` | one pull, convergence with a bound, the loop over peers with backoff |
| `Agreement` | N agents under any interleaving of appends, pulls, failures, restarts and deposits |
| `AgentRuntime` | the memoised community state, the join gate, the writing tools |
| `Text`, `Canonical` | Python string operations and canonical markdown |
| `ManifestSyntax`, `WrittenManifest` | the manifest parsers, and their notation stated apart from them |
| `ManifestRoundTrip`, `ManifestIdentity`, `ManifestContexts` | the printer, the round trip, and what a network id settles |
| `OverlayExchange` | fetching documents by content hash among forging peers |
| `ClawCommunity`, `ClawCapacity` | the shared treasury that rents seedboxes and houses members |
| `KeyPool`, `ProxyForward` | key rotation and the proxy's retry loop |
| `Watchdog` | the bounded agent run loop |

Code that updates state is modelled as classes and loops, each proved equal to a specification function
or relation, with its effect also stated on the fields themselves; the promises are then proved of that
specification. `dafny verify dfyconfig.toml` checks
everything.

## Assumptions

- Hashing and signing are parameters. `Gate.Sound` is what they are assumed to give: a verified entry's
  hash determines it, and is neither empty nor the empty-log sentinel. An entry that verifies under an
  agent's name was written by that agent (`Agreement.Enabled`). `OverlayExchange` assumes of SHA-1 only
  what each lemma names.
- Of a signed log only this is used: it is append-only, its entry hashes are pairwise distinct, and its
  head is the hash of its last entry. One process writes each file.
- Clocks, networks, peers' answers, wallets, model turns and seedbox launches are inputs, universally
  quantified. Amounts and counts are unbounded integers, as in Python.
- Text is a sequence of code points.

## What holds only under a condition

- **Order independence.** `agent/community_state.py:69-73` says that any permutation of one entry set
  replays to one state. The sort is stable, so the replay order is independent of the input exactly when
  distinct entries have distinct sort keys (`OrderIndependentIff`). For the state this is sufficient, and
  only the network's own entries matter (`OwnEntriesDetermineTheState`); it is not necessary, since two
  entries that share a key may both be rejected. `SharedKeyLeaksOrder` is a failing pair. Verified entries
  always have distinct keys.
- **A late entry that sorts early can expel members** (`LateArrivalCanRetract`); history is final up to a
  cut that views share (`AgreementUpToCutIsFinal`).
- **The memo key leaves out the manifest.** Under one manifest every answer is a fresh replay, over every
  interleaving of own appends, pulls, joins and tool calls (`EveryAnswerIsFresh`, and `AnswerAfter` on the
  class). After another network is loaded the stale answer is right exactly when no entry in view could open
  a community of either network (`StaleMemoRightIff`, with `StaleAnswerAfterLoad` for a failing agent).
- **A batch of zero** lets a first pull adopt the peer's head without holding any entry; a first pull is
  safe exactly when the batch is at least one (`FreshPullSafeIff`).
- **Strangers.** An entry whose author runs no agent reaches only the gatekeeper it was sent to.
  Synchronised agents have equal views exactly when they cache the same strangers (`ViewsAgreeIff`). A
  stranger admitted by one gatekeeper and never deposited at another keeps the two apart in every run
  (`OutsiderSplitsAgents`).
- **An open purchase** can be provisioned exactly when its hash is neither empty nor that of an earlier
  purchase (`OpenPurchaseClosableIff`). The pairing of provisions with purchases needs no such condition.
- **One network id, two manifests.** Canonical text strips line ends, and the parser gives meaning to a
  blank there in two cases: an untitled heading and a bullet with a blank value. Without those, equal ids
  mean equal manifests (`SameIdSameManifest`). Of single lines the condition is exact: a line is of neither
  kind exactly when, among any lines that are not, stripping its end leaves the manifest what it was
  (`PlainIffHarmless`).
- **Scenario names** may hold hyphens and capitals (`deploy/scenario.py:145`), which the manifest parser
  rejects: a printed manifest parses exactly when `LegalBoot` holds (`PrintedParsesIff`, `RoundTripIff`).
- **Fetching a hash again** before the first answer leaves the first caller waiting
  (`RefetchStrandsTheFirst`).
- **A served document** is served only while its text fits in one delivery. Publishing it again with
  invisible padding keeps its id and can silence it (`RepublishedAnswersIff`, `PaddingSilences`).
- **A reused hostname.** A seedbox bought under the default name of a later number makes expansions pay
  for nothing (`TakenNameIsPaidInVain`, `ExplicitNameSetsTheTrap`).
- **The proxy** counts HTTP failures but not transport failures. With every attempt lasting `d` it retries
  for ever exactly when a round of the other keys takes at least the cooldown (`NeverStopsIff`); the
  defaults, a 60 s cooldown and a 180 s timeout, allow that with two keys.

Where code and documentation differ the code is modelled: `protocol/network_schema.md` forbids further
top-level headings between the required ones and calls `min_sats` a uint64, and the parser enforces
neither.

## Model

| member | source | states |
|---|---|---|
| `Entries.SortIsOrderedPermutation` | agent/community_state.py:192-199 | the replay order is a permutation of the entries in key order |
| `Entries.SortedByTimeThenReporterThenHash` | agent/community_state.py:192-199 | of any two sorted entries, the first of timestamp, reporter and hash that tells them apart is smaller in the earlier one: a proper prefix, or the smaller character where they first differ |
| `Entries.SortIsStable` | agent/community_state.py:192-199 | entries with equal keys keep their input order |
| `Entries.SortOfSeparated` | agent/community_state.py:192-199 | sorting two lists that are already apart sorts each by itself |
| `CommunityLedger.ReplayCommunity` | agent/community_state.py:173-249 | the loop over members, donations, purchases, provisions, balance and count computes exactly the pure fold over the sorted relevant entries; nothing replays to the empty community with one seedbox |
| `CommunityLedger.FoldConcat` | agent/community_state.py:209-240 | folding a stream in two parts is folding it whole |
| `LedgerInvariants.DonationAcceptedIff` | agent/community_state.py:257-289 | in every state satisfying the invariant: a donation is accepted iff it comes from a named non-member, is at least the minimum, and is at most the declared cap or else ten times the minimum, or, after the first, exactly and without rounding, the mean so far |
| `LedgerInvariants.PurchaseAcceptedIff` | agent/community_state.py:292-329 | a purchase is accepted iff both growth fields are positive, a member asks at the exact price, k+1 purchases are covered by all donations, k+1 full seedboxes are outgrown, and no purchase is open |
| `LedgerInvariants.ProvisionAcceptedIff` | agent/community_state.py:332-377 | a provision is accepted iff a member names the one open purchase and that purchase can be told apart from earlier ones |
| `LedgerInvariants.OpenPurchaseClosableIff` | agent/community_state.py:347-360 | some provision closes the open purchase iff its hash is not empty and not that of an earlier purchase |
| `LedgerInvariants.StepKeepsInvariant` | agent/community_state.py:209-240 | no entry of any kind breaks the ledger invariant |
| `LedgerInvariants.RunKeepsInvariant` | agent/community_state.py:202-240 | at every prefix of every stream: members are the distinct donors, balance = donations - cost x purchases >= 0, count = 1 + provisions, at most one purchase is open, provision i names purchase i, each donation is within the minimum and the mean before it, purchases are outgrown |
| `LedgerInvariants.TotalIsSum` | agent/community_state.py:276-278 | the total is the sum of the amounts |
| `LedgerInvariants.ReplayInvariant` | agent/community_state.py:173-249 | the same of every replayed view |
| `LedgerInvariants.AtMostFloorMean` | agent/community_state.py:276-280 | flooring the mean never changes which whole amounts are admitted |
| `LedgerInvariants.CapIsFloorMean` | agent/community_state.py:273-282 | after the first donor, max(min_sats, mean) is always the mean |
| `LedgerInvariants.MeanNeverRises` | agent/community_state.py:273-282 | each further donation leaves the mean the same or lower, exactly and floored |
| `LedgerInvariants.DonationsAtMostFirst` | agent/community_state.py:273-282 | every accepted donation lies between the minimum and the first one |
| `LedgerInvariants.IncomeBounded` | protocol/manifest.py:47-50 | total donations are at most the member count times the effective bootstrap cap |
| `LedgerInvariants.MinimumDonationAdmitted` | agent/community_state.py:257-289 | a newcomer offering exactly min_sats is admitted in every replayed state |
| `LedgerInvariants.MinimumDonorJoins` | agent/community_state.py:257-289 | whoever offers exactly min_sats anywhere in a stream is a member at its end |
| `LedgerInvariants.SeedboxesOutgrown` | agent/community_state.py:317-322 | once anything is provisioned, (seedboxes - 1) x max_agents < members |
| `LedgerInvariants.RunOnlyExtends` | agent/community_state.py:209-240 | folding on never removes a member or a record, from any state |
| `ReplayOrder.StepIdempotent` | agent/community_state.py:267-360 | an entry replayed twice in a row is a no-op the second time, accepted or rejected, from any state |
| `ReplayOrder.ReplayDependsOnlyOnTheSet` | agent/community_state.py:67-73 | any permutation and any repetition of a view replays to the same state, if its keys identify its entries |
| `ReplayOrder.OwnEntriesDetermineTheState` | agent/community_state.py:192-216 | two views with the same entries of a network, in any order and number and among any others, replay to one state, if the keys of those entries identify them |
| `ReplayOrder.StrictListingUnique` | agent/community_state.py:192-199 | a set of entries has at most one strictly ordered listing |
| `ReplayOrder.OrderIndependentIff` | agent/community_state.py:67-73 | the order in which entries are replayed is independent of input order iff distinct entries have distinct keys |
| `ReplayOrder.SharedKeyLeaksOrder` | agent/community_state.py:192-199 | a network and two entries with one key whose two orders replay to different states |
| `ReplayOrder.LaterEntriesExtend` | agent/community_state.py:192-240 | entries sorting after a whole view are folded onto the view's state |
| `ReplayOrder.AgreementUpToCutIsFinal` | agent/community_state.py:192-240 | views that agree up to a key continue one common state, whatever lies beyond |
| `ReplayOrder.LateArrivalCanRetract` | agent/community_state.py:192-240 | one late entry with an early key removes a member of the earlier replay |
| `ReplayOrder.NetworksAgreeIffEmpty` | agent/community_state.py:212-216 | one view gives two networks the same state iff no entry in it passes the guards of a first donation to either |
| `ReplayOrder.ReplayEmptyIff` | agent/community_state.py:257-289 | a view replays to the empty community iff it holds no donation to the network by a named reporter between min_sats and the bootstrap cap |
| `ReplayOrder.EarliestOpenerFounds` | agent/community_state.py:192-231 | a community is founded by the earliest entry, by timestamp, then reporter, then hash, that passes the guards of a first donation, and its first record is that entry |
| `ReplayOrder.TimeComesBeforeReporter` | agent/community_state.py:192-199 | a concrete pair: the earlier timestamp founds and is the only member, though the other reporter is smaller |
| `SignedLogs.ServeFromPosition` | redteam/integration/server.py:626-649 | asking from the k-th cursor yields the next min(limit, 1000) entries |
| `SignedLogs.ServeAnswers` | redteam/integration/server.py:609-649 | the linear meaning of a query, answer by answer, said of the entries alone |
| `SignedLogs.PagesTile` | redteam/integration/server.py:609-649 | chained queries return a contiguous slice: no gap, no overlap, for every page size |
| `SignedLogs.CrawlReturnsChain` | redteam/integration/server.py:609-649 | enough pages from the start return the whole chain |
| `SignedLogs.PrefixWithSameHead` | redteam/integration/server.py:334-340 | a prefix of a duplicate-free chain with the same head is the whole chain |
| `SignedLogs.SignedLog.Append` | redteam/primitives/signed_log.py:172-201 | the only way a log changes: one entry with a new hash at the end |
| `SignedLogs.EntryServer.EnsureEntriesCache` | redteam/integration/server.py:332-349 | keyed on the head alone, the cache and its hash index equal the current log |
| `SignedLogs.EntryServer.GetHead` | redteam/integration/server.py:592-600 | the hash of the last entry, or GENESIS |
| `SignedLogs.EntryServer.GetEntries` | redteam/integration/server.py:608-649 | the indexed answer is the linear one: 400 iff the limit is negative, 404 iff the cursor is no entry of the log, and otherwise the entries strictly after the cursor, or all without one, cut at the limit and at 1000 and nowhere else |
| `SignedLogs.EntryServer.GetEntryByHash` | redteam/integration/server.py:651-658 | an entry of that hash, or none exactly when the log has none |
| `PeerLogs.AcceptKeepsFiles` | redteam/primitives/peer_log.py:76-144 | accepting never rewrites, keeps every file to verified entries of its source without repeats and without our own, and rejects iff the gate does |
| `PeerLogs.PeerLog.AcceptEntry` | redteam/primitives/peer_log.py:76-144 | with lazily scanned indexes: refused iff it is our own or does not verify, a duplicate iff its source's file holds its hash, and otherwise, and only then, appended to that file |
| `PeerLogs.PeerLog.HasEntryHash` | redteam/primitives/peer_log.py:146-172 | the indexed answer is whether the file holds the hash |
| `PeerLogs.PeerLog.LatestHashFor` | redteam/primitives/peer_log.py:174-189 | the last hash of the file, indexed or not |
| `PeerLogs.PeerLog.ScanFile` | redteam/primitives/peer_log.py:154-172 | one pass computes exactly the hash set and the tail of a file |
| `PeerLogs.PeerLog.ListSources` | redteam/primitives/peer_log.py:226-231 | every source once |
| `PullSync.PullOnce` | redteam/integration/pull_loop.py:52-118 | the loop with its early exit computes the specified cursor, count, rejection and files, and keeps `IsPull`: what is asked, when it fails, where it stops, what it reports, and a count that is what the cache gained |
| `PullSync.PullIsPull` | redteam/integration/peer_transport.py:91-122 | the specification keeps the same promise: a batch more than ten times the limit fails, a rejection carries the entry's hash or `<missing>`, the cursor is the last accepted hash, else the head for an empty first answer, else what it was |
| `PullSync.AbsorbStopsAtRejection` | redteam/integration/pull_loop.py:95-111 | the cursor stands on the last acceptable entry, and a rejection is reported iff the batch has more |
| `PullSync.AbsorbCountsGain` | redteam/integration/pull_loop.py:95-111 | the count is the number of entries the cache gained, duplicates within a batch included |
| `PullSync.AbsorbTakesAcceptablePrefix` | redteam/integration/pull_loop.py:95-111 | exactly the acceptable prefix of a batch ends up held, and nothing else enters |
| `PullSync.AbsorbOfHeldChangesNothing` | redteam/integration/pull_loop.py:95-111 | duplicates move the cursor and leave the cache alone |
| `PullSync.PullAdvances` | redteam/integration/pull_loop.py:79-118 | even with a head older than the entries served: all entries up to the cursor are cached, the cursor advances by min(batch, 1000), to the end, or to just before the first rejected entry |
| `PullSync.PullAtHeadIsIdle` | redteam/integration/pull_loop.py:85-90 | whatever the peer would serve, a pull reports the head and changes nothing iff the cursor is at the end of a non-empty chain |
| `PullSync.PullStuckAtRejection` | redteam/integration/pull_loop.py:95-111 | in front of a rejected entry every pull reports it and neither moves nor stores |
| `PullSync.PullConvergesIff` | redteam/integration/pull_loop.py:79-118 | from position k, r successful pulls reach the end of the acceptable prefix iff r x min(batch, 1000) covers the distance |
| `PullSync.FreshPullSafeIff` | redteam/integration/pull_loop.py:113-116 | a first pull fails iff the batch is negative, and is safe iff it is at least one |
| `PullSync.PullResultIgnoresCache` | redteam/integration/pull_loop.py:92-118 | what a pull reports does not depend on what the cache already holds |
| `PullDriver.PullLoop.VisitOne` | redteam/integration/pull_loop.py:158-203 | a peer is passed over, with nothing changed, iff the clock is before its next attempt (0 if it has none); otherwise it is pulled from once, and ends with the pull's cursor and no wait, or with its old cursor and a delay of min(60, max(interval, twice the last)) from the clock of the failure; no other peer is touched |
| `PullDriver.PullLoop.Run` | redteam/integration/pull_loop.py:121-212 | after any rounds over any peer list each peer's track is a function of the visits paid to it, despite the shared cache |
| `PullDriver.OneVisitARound` | redteam/integration/pull_loop.py:150-152 | a peer listed once is visited once in each round, at that round's clock |
| `PullDriver.BackoffDoubles` | redteam/integration/pull_loop.py:142-203 | after any visits at all, skipped ones included: n failed attempts since the last success make the peer wait min(60, interval x 2^n) from the clock of the last one, and none means no wait |
| `PullDriver.WaitsUntilDue` | redteam/integration/pull_loop.py:142-203 | after any visits with n failed attempts since the last success, the last at clock c, the next visit is passed over iff it comes before c + min(60, interval x 2^n), and otherwise fails into the next longer wait or ends the wait |
| `PullDriver.BackoffCountsFromLastSuccess` | redteam/integration/pull_loop.py:142-203 | whatever came before a success, later delays count the failed attempts after it, and the cursor stays where it left it until the next |
| `Agreement.RunKeepsSound` | redteam/integration/pull_loop.py:121-212 | in every run of N agents: caches are genuine and repeat-free, and every cursor stands at a position all of whose entries are cached |
| `Agreement.EventEffects` | redteam/integration/pull_loop.py:140-203 | what each event does to the agent it happens at, and that no other agent notices: a restart forgets every cursor and no entry, a pull is `IsPull` and stores its cursor |
| `Agreement.LastEventAdds` | redteam/integration/pull_loop.py:79-118 | a restart moves every position of its agent back to the start; any other event leaves each position where it is or ahead, and an effective pull gains a batch or reaches the end |
| `Agreement.CursorNeverGoesBack` | redteam/integration/pull_loop.py:121-212 | in every run in which an agent does not restart, its position in every other log never decreases |
| `Agreement.PullsAddUp` | redteam/integration/pull_loop.py:79-118 | once appends stop, each effective pull since the last restart is worth a full batch, despite failures, lost cursors and out-of-order deposits |
| `Agreement.EffectivePullsCount` | redteam/integration/pull_loop.py:79-118 | what counts as an effective pull: one at the full length with batch and limit at least b counts one, a restart starts over, nothing else counts |
| `Agreement.EnoughPullsSync` | agent/runtime.py:443-453 | enough pulls by each from each in some stretch between restarts, after the last append, leave every agent caching every other log, later restarts included |
| `Agreement.BestPullsCache` | redteam/primitives/peer_log.py:76-144 | what the best stretch between two restarts has fetched is still cached at the end of the run |
| `Agreement.PullingCatchesUp` | redteam/integration/pull_loop.py:79-203 | in every sound world, n pulls in a row with n x min(batch, 1000) at least the length of the log are possible and leave the whole log cached |
| `Agreement.ViewsAgreeIff` | agent/runtime.py:443-453 | synchronised agents see the same entries iff they cache the same strangers |
| `Agreement.AgentsAgree` | agent/runtime.py:455-485 | from empty agents, through any legal history and enough quiet pulls, two agents with the same strangers compute the same community state, each from its own listing |
| `Agreement.OutsiderSplitsAgents` | agent/runtime.py:491-536 | in every run in which a stranger reaches one gatekeeper with the minimum and never another, the first counts the stranger as a member and the second does not |
| `Agreement.OutsiderSplitsSynced` | agent/runtime.py:491-536 | such a run exists in which all agents are synchronised |
| `AgentRuntime.EqualKeysEqualViews` | agent/runtime.py:466-475 | equal heads of append-only, duplicate-free logs mean equal contents |
| `AgentRuntime.MemoHitIsFresh` | agent/runtime.py:466-485 | a memo hit is exactly a fresh replay of the present view |
| `AgentRuntime.AnyListingIsFresh` | agent/runtime.py:443-453 | the order in which logs and files are merged does not matter to the replay |
| `AgentRuntime.StaleMemoRightIff` | agent/runtime.py:340-385 | after another manifest is loaded the old answer is right iff no entry in view could open a community of either network |
| `AgentRuntime.StaleMemoWitness` | agent/runtime.py:466-485 | a view, two networks and a sound memo whose answer is wrong for the second |
| `AgentRuntime.StaleAnswerAfterLoad` | agent/runtime.py:340-385 | an agent that asks, loads another manifest and asks again gets an answer that no replay under it gives |
| `AgentRuntime.EveryAnswerIsFresh` | agent/runtime.py:455-485 | after any interleaving of own appends, pulls, join deposits and questions under one manifest, the memoised state answers as a fresh replay does |
| `AgentRuntime.OperationEffects` | agent/runtime.py:455-485 | what each operation does to logs, files and memo; a question is answered from the memo exactly on a hit, and otherwise replayed and remembered |
| `AgentRuntime.AnswerAfter` | agent/runtime.py:455-485 | the same of the class: after any calls of its methods the next answer is a fresh replay of the present view, and a wallet with a tracked balance has not spent more than it |
| `AgentRuntime.PreCheckIff` | agent/tools.py:271-310 | for an entry sorting after the view, a tool's guards pass iff replay accepts the entry, and nothing accepted before is lost |
| `AgentRuntime.ToolCheckMatchesStep` | agent/tools.py:418-453 | from any state, the guards of the three writing tools and the replay validators decide alike |
| `AgentRuntime.DonateRefusals` | agent/tools.py:271-291 | which refusal a donation gets, for every state and amount, and that none is given exactly between minimum and cap to a non-member |
| `AgentRuntime.PurchaseRefusals` | agent/tools.py:420-443 | which refusal a proposed purchase gets, in the order of the guards |
| `AgentRuntime.ProvisionRefusals` | agent/tools.py:489-513 | which refusal a provision gets, in the order of the guards |
| `AgentRuntime.OpenClawAgent.LoadManifest` | agent/runtime.py:340-385 | the same network again keeps the manifest, another replaces it, and the memo is left alone |
| `AgentRuntime.OpenClawAgent.AllCommunityEntries` | agent/runtime.py:443-453 | the merged list holds exactly the own log and all cached entries |
| `AgentRuntime.OpenClawAgent.CurrentKey` | agent/runtime.py:466-475 | the memo key is the own head and every file's tail |
| `AgentRuntime.OpenClawAgent.CommunityState` | agent/runtime.py:455-485 | memoised or recomputed, the answer is a fresh replay under the memo's manifest; a hit leaves the memo alone, and a current memo stays current |
| `AgentRuntime.OpenClawAgent.PullFromPeer` | agent/runtime.py:186-215 | pulls into the shared cache keep the memo sound |
| `AgentRuntime.OpenClawAgent.HandleCommunityJoin` | agent/runtime.py:491-536 | a donation enters the cache iff the gate passes it, and each refusal has its reason; with a current memo the joiner is accepted iff the replayed view then admits it, and the memo stays current |
| `AgentRuntime.OpenClawAgent.AppendOwn` | agent/runtime.py:387-407 | writing our own log keeps the memo sound |
| `AgentRuntime.OpenClawAgent.CommunityDonateAndJoin` | agent/tools.py:255-315 | the first failing guard refuses; then the wallet does, iff there is no address or a tracked balance has less left than the amount; otherwise the amount is debited and exactly one signed donation is written. With a current memo the guards agree with replay, and the memo stays current |
| `AgentRuntime.OpenClawAgent.CommunityJoinViaPeer` | agent/tools.py:317-403 | the same guards and the same wallet; past them the entry is written and paid for whatever becomes of the message, and the outcome says whether the peer was unknown, silent or answered |
| `AgentRuntime.OpenClawAgent.SeedboxPurchasePropose` | agent/tools.py:405-458 | the guards decide at the given price, or the manifest's; with a current memo a purchase is written iff replay would accept it, and the memo stays current |
| `AgentRuntime.OpenClawAgent.SeedboxProvisioned` | agent/tools.py:460-534 | the guards decide; with a current memo a provision is written iff replay would accept it, and the memo stays current |
| `Text.ParseOfPrintInt` | protocol/manifest.py:183-204 | a printed integer, negative ones included, is read back as itself |
| `Text.SplitOfJoin` | protocol/manifest.py:83-101 | joining separator-free parts and splitting again gives them back |
| `Text.JoinOfSplit` | protocol/compiler.py:101-104 | splitting and joining again is the identity on every text |
| `Canonical.CanonicalizeMd` | protocol/compiler.py:97-104 | the strip and pop loops compute the specified canonical text |
| `Canonical.CrlfAbsorbed` | protocol/compiler.py:99-100 | after stripping, the CRLF replacement makes no difference |
| `Canonical.CanonIdempotent` | protocol/compiler.py:97-104 | canonicalising twice is canonicalising once |
| `Canonical.SameCanonIff` | protocol/compiler.py:97-104 | two texts have one canonical form iff they show the same stripped lines up to trailing empty ones |
| `Canonical.CanonicalIff` | protocol/compiler.py:97-104 | a text is its own canonical form iff no line ends in white space and the last is not empty |
| `Canonical.CrlfInvisible` | protocol/compiler.py:99-100 | the CRLF form of a text has the same canonical form |
| `Canonical.ToCrlfBreaks` | protocol/compiler.py:99-100 | the CRLF form has a carriage return before each line break and nowhere else |
| `Canonical.BlankBeforeBreakInvisible` | protocol/compiler.py:100-101 | blanks before a line break are invisible |
| `Canonical.TrailingSpaceInvisible` | protocol/compiler.py:101-103 | any white space after the last visible character is invisible |
| `ManifestSyntax.SplitTopSections` | protocol/manifest.py:83-101 | the line loop yields the section dictionary and heading order of the recursive outline |
| `ManifestSyntax.ParseKvList` | protocol/manifest.py:141-147 | the dictionary of the bullets, later keys winning |
| `ManifestSyntax.ReadTable` | protocol/manifest.py:313-324 | the cell rows in order, separators and other lines skipped |
| `ManifestSyntax.ParseGenesisPeers` | protocol/manifest.py:244-290 | header check, row loop and emptiness check return the peers or the first error |
| `ManifestSyntax.ParsePeerRows` | protocol/manifest.py:254-287 | the seen-set loop returns all peers, or the error of the first bad row |
| `ManifestSyntax.ParseDefaultOverlays` | protocol/manifest.py:292-306 | the hashes in order, or the first duplicate |
| `ManifestSyntax.ParseManifest` | protocol/manifest.py:331-354 | the composition stops at the first failing section, in the source's order |
| `ManifestSyntax.AllRequiredPresent` | protocol/manifest.py:103-115 | once the order check passes, all four sections are there |
| `WrittenManifest.NamesIff` | protocol/manifest.py:137-137 | a name is a small letter and then small letters, digits and underscores, each listed |
| `WrittenManifest.SemverIff` | protocol/manifest.py:122-122 | a version is three numerals with dots between |
| `WrittenManifest.AddressIff` | protocol/manifest.py:129-135 | an address is tb1 or bc1 and then bech32 characters, or dclaw1 and then hex digits |
| `WrittenManifest.KeysAndHashesIff` | protocol/manifest.py:136-138 | a public key is a positive even number of hex digits, a hash forty |
| `WrittenManifest.StripIff` | protocol/manifest.py:94-94 | strip returns what stands between the outermost white space, and only that |
| `WrittenManifest.BulletIff` | protocol/manifest.py:121-147 | the key-value reader accepts exactly the lines of the shape its pattern describes, with that key and value, the last blank of a blank value included |
| `WrittenManifest.LastBulletWins` | protocol/manifest.py:141-147 | a key that has bullets gets the value of the last one |
| `WrittenManifest.OnlyBulletsCount` | protocol/manifest.py:141-147 | a key is read iff some line is a bullet of it |
| `WrittenManifest.LastSectionWins` | protocol/manifest.py:83-101 | of sections with one name the last is read, and no name but theirs |
| `WrittenManifest.OverlayLineIff` | protocol/manifest.py:138-138 | the overlay reader accepts exactly the lines of its pattern, with that hash |
| `WrittenManifest.TableRowIff` | protocol/manifest.py:313-324 | the table reader takes exactly the rows between bars that are more than rules, each as its stripped cells |
| `WrittenManifest.NumberIff` | protocol/manifest.py:177-196 | a number is digits with single underscores between two of them |
| `WrittenManifest.NumberValue` | protocol/manifest.py:177-196 | numbers are read in base ten, underscores notwithstanding |
| `WrittenManifest.IntegerIff` | protocol/manifest.py:177-196 | an integer is a number with at most one sign, among blanks |
| `WrittenManifest.AdmissionIff` | protocol/manifest.py:167-241 | an admission section is accepted, and as this policy, iff its three required fields and every optional one present are in range and the cap is 0 or at least the minimum; an absent optional field is 0 |
| `WrittenManifest.IdentityIff` | protocol/manifest.py:150-166 | an identity section is accepted, as all its bullets, iff it has a name, a version and a description of the right form |
| `WrittenManifest.GenesisPeersIff` | protocol/manifest.py:244-290 | a peer table is accepted, and as these peers, iff its header reads host, port, pubkey_hex in any case, it has a row, and each row names a peer with its own host and port |
| `WrittenManifest.OverlaysIff` | protocol/manifest.py:292-306 | the overlay section is accepted, as its hashes in order, iff none comes twice |
| `WrittenManifest.ManifestIff` | protocol/manifest.py:331-354 | a text is accepted, and as this manifest, iff its sections are there in order and each is accepted as its part of it |
| `WrittenManifest.AdmissionFaultIsReal` | protocol/manifest.py:167-241 | a refused admission section has the fault it is refused for: the key is missing, the text no integer, the number out of its range, the address malformed, the cap below the minimum |
| `WrittenManifest.IdentityFaultIsReal` | protocol/manifest.py:150-166 | the same of the identity section |
| `WrittenManifest.PeerFaultIsReal` | protocol/manifest.py:254-287 | the same of the peer rows; a duplicate is reported of two rows with that host and port |
| `WrittenManifest.OverlayFaultIsReal` | protocol/manifest.py:292-306 | a duplicate hash is reported of two lines that carry it |
| `WrittenManifest.SectionFaultIsReal` | protocol/manifest.py:103-115 | the sections reported missing are exactly those that are; out of order is said only when all are there |
| `ManifestRoundTrip.AcceptedIsWellFormed` | protocol/manifest.py:150-306 | for every accepted text: snake-case name, semver, legal address, all ranges, cap 0 or at least the minimum, distinct (host, port) peers with even hex keys, distinct 40-hex overlays; in particular the policy the ledger relies on |
| `ManifestRoundTrip.RowsHoldCells` | protocol/manifest.py:313-324 | every cell of every table is trimmed and free of bars and breaks |
| `ManifestRoundTrip.ParseBullet` | protocol/manifest.py:121-147 | a printed bullet is read back as its key and value |
| `ManifestRoundTrip.CellsOfTableRow` | protocol/manifest.py:313-324 | a printed table row is read back as its cells |
| `ManifestRoundTrip.Sha1OfPrinted` | protocol/manifest.py:138-138 | a printed hash is read back whatever non-word text follows |
| `ManifestRoundTrip.OutlineOfLines` | protocol/manifest.py:83-101 | a text laid out in sections is read back as those sections |
| `ManifestRoundTrip.PrintedAdmission` | protocol/manifest.py:169-219 | the printed policy is accepted iff well formed, and then unchanged |
| `ManifestRoundTrip.PrintedOverlays` | deploy/scenario_boot.py:783-788 | printed overlays are read back iff distinct, the empty list included |
| `ManifestRoundTrip.PrintedParsesIff` | deploy/scenario_boot.py:769-809 | a printable boot parses iff it is legal, and then to exactly its values |
| `ManifestRoundTrip.RoundTripIff` | deploy/scenario_boot.py:769-809 | for arbitrary fields, parsing the printed manifest returns exactly the boot's values iff the boot is legal |
| `ManifestRoundTrip.PrintedManifestSays` | deploy/scenario_boot.py:769-809 | what a legal boot's manifest is read back as, field by field: version 1.0.0, the generated description, the policy, the one peer and the overlays |
| `ManifestIdentity.PlainIff` | protocol/manifest.py:121-147 | a line reads the same after stripping its end iff it is no untitled heading and no blank-valued bullet |
| `ManifestIdentity.StripPlainLine` | protocol/manifest.py:121-138 | stripping a plain line changes nothing any section parser reads |
| `ManifestIdentity.SameIdSameManifest` | protocol/manifest.py:357-359 | plain texts with one canonical form are one manifest, or fail with one error |
| `ManifestIdentity.CanonicalKeepsManifest` | protocol/manifest.py:331-354 | a plain manifest means the same after canonicalisation |
| `ManifestIdentity.OneIdTwoMeanings` | protocol/manifest.py:121-147 | for every legal boot, two texts of one canonical form of which one parses and the other does not |
| `ManifestContexts.PlainIffHarmless` | protocol/manifest.py:83-147 | a single line is neither an untitled heading nor a blank-valued bullet iff among any such lines stripping its end leaves the manifest what it was |
| `ManifestContexts.OtherLinesAreNot` | protocol/manifest.py:83-147 | every other line has surroundings in which one canonical form has two meanings |
| `OverlayExchange.SeedboxCommunity.PublishDocument` | communication/community.py:443-450 | the text is served under the SHA-1 of its canonical form, which is returned |
| `OverlayExchange.SeedboxCommunity.FetchDocument` | communication/community.py:459-470 | an id of 20 bytes gets a new future, displacing an older one, and exactly one request for it is sent to that peer; any other id is refused and nothing is sent |
| `OverlayExchange.SeedboxCommunity.OnRequest` | communication/community.py:480-493 | the asking peer, and no other, gets the served text if it fits in 65536 bytes; otherwise nothing is sent |
| `OverlayExchange.SeedboxCommunity.OnDelivery` | communication/community.py:495-510 | a body of at most 65536 bytes whose canonical SHA-1 is the key's settles the pending future; any other changes nothing |
| `OverlayExchange.RunKeepsAuthentic` | communication/community.py:443-510 | in every run, whatever arrives: only genuine text is handed out or sent |
| `OverlayExchange.FetchedTextIsGenuine` | communication/community.py:495-510 | a resolved fetch holds text within the cap whose canonical id is the one asked for |
| `OverlayExchange.SettledForever` | communication/community.py:508-510 | a future settles at most once |
| `OverlayExchange.FetchComesOutAsItsFate` | communication/community.py:459-510 | after any history and before any events, a fetch ends exactly as a two-rule automaton over the later events says |
| `OverlayExchange.UndisturbedResolvesIff` | communication/community.py:495-510 | neither cancelled nor repeated, a fetch resolves iff some genuine delivery gets through |
| `OverlayExchange.HonestReplyResolves` | communication/community.py:459-510 | end to end: a fetch sends its request, an honest publisher with a text that fits answers whoever asked, and that very answer resolves the fetch, forgeries before it or not |
| `OverlayExchange.AnswersIff` | communication/community.py:480-493 | a node answers iff it serves the key with a text that fits, and then genuinely |
| `OverlayExchange.StaysPublished` | communication/community.py:443-450 | a published key stays published, with text of the same canonical form |
| `OverlayExchange.RepublishedAnswersIff` | communication/community.py:443-493 | after a second text is published under one id, the key is answered iff the second text fits in one delivery |
| `OverlayExchange.PaddingSilences` | communication/community.py:443-493 | publishing a text again with blanks beyond the cap silences it under the id it keeps |
| `OverlayExchange.FetchedShowsPublished` | communication/community.py:97-116 | without a collision, fetched text shows exactly the lines published under its hash |
| `OverlayExchange.RefetchStrandsTheFirst` | communication/community.py:465-467 | a second fetch of one key leaves the first future waiting under every continuation without a cancel |
| `ClawCommunity.SortByTime` | claw_community/service.py:373-378 | every key once, none before one of a smaller time, for whatever order the dictionary has |
| `ClawCommunity.RequiredIsLeast` | claw_community/models.py:75-78 | the required count is the least number of seedboxes that hold everyone, and one when nobody is left of a community that has one |
| `ClawCommunity.CoveredIff` | claw_community/models.py:75-78 | the required count is there iff the members are at most the seedboxes times the capacity |
| `ClawCommunity.Community.constructor` | claw_community/service.py:36-75 | a founded community holds the founder and the initial funding, and no seedbox |
| `ClawCommunity.Community.FundTreasury` | claw_community/service.py:100-118 | the amount is added to balance and income, and nothing else changes |
| `ClawCommunity.Community.BuySeedbox` | claw_community/service.py:134-187 | refused, with nothing changed, below the price (the given cost or the threshold) or by a provider that does not launch; otherwise the price moves from balance to outgoing, the seedbox is registered under the given or the next default name, and everyone is rehoused |
| `ClawCommunity.Community.JoinCommunity` | claw_community/service.py:189-241 | refused, with nothing changed, below the fee; otherwise the amount comes in, the agent is enrolled, everyone is rehoused, and one seedbox is bought at the threshold iff the heads then exceed seedboxes times capacity and the balance reaches it |
| `ClawCommunity.Community.MaybeExpandSeedboxes` | claw_community/service.py:243-270 | expands iff the members exceed seedboxes times capacity and the balance reaches the threshold, which is then paid, with the provider of the oldest seedbox |
| `ClawCommunity.Community.RebalanceMembers` | claw_community/service.py:371-380 | the same members, the i-th by joining time in seedbox min(i / capacity, n - 1) by age |
| `ClawCapacity.LoadExact` | claw_community/service.py:371-380 | each seedbox but the newest holds exactly its share, the newest the rest |
| `ClawCapacity.EarlierJoinersOlderHomes` | claw_community/service.py:371-380 | whoever joined earlier never lives in a newer seedbox |
| `ClawCapacity.WithinCapacityIff` | claw_community/models.py:75-78 | nobody is over capacity iff the required count is there |
| `ClawCapacity.OnlyNewestOverfull` | claw_community/service.py:371-380 | at most one seedbox is overfull, and none is newer |
| `ClawCapacity.RunKeepsSound` | claw_community/service.py:134-380 | in every run balance = incoming - outgoing, and with a seedbox everyone is housed in order |
| `ClawCapacity.BooksAddUp` | claw_community/service.py:100-270 | in every run income is the funding, the sums funded later and the accepted join amounts, outgoing is the prices of the purchases that went through, and the balance is the difference |
| `ClawCapacity.RunStaysSolvent` | claw_community/service.py:134-270 | with no negative funding no run overdraws the treasury, whatever the prices |
| `ClawCapacity.CoveredAfterJoinIff` | claw_community/service.py:189-270 | after a join there are enough seedboxes iff there were already, or one more suffices, is affordable and gets a new id |
| `ClawCapacity.RunKeepsDefaultNamed` | claw_community/service.py:150-157 | without explicit hostnames the next default name is always unused |
| `ClawCapacity.RunStaysWithinCapacity` | claw_community/service.py:189-270 | once covered, a run whose joins can pay stays covered, with no seedbox over capacity |
| `ClawCapacity.TakenNameIsPaidInVain` | claw_community/service.py:150-174 | a taken name costs the threshold in full, adds no seedbox, and stays taken |
| `ClawCapacity.ExplicitNameSetsTheTrap` | claw_community/service.py:150-174 | one explicitly named seedbox suffices for the next join to pay and stay uncovered |
| `KeyPool.RotatingKeys.Acquire` | scripts/llm_proxy.py:81-93 | the key given out is ready and all from the cursor up to it, round the end, are cooling down; the cursor moves just past it; none is given, and nothing moves, iff all are cooling down |
| `KeyPool.RotatingKeys.MarkExhausted` | scripts/llm_proxy.py:95-101 | that key alone is benched, until the cooldown from now |
| `KeyPool.NoneIff` | scripts/llm_proxy.py:84-93 | no key is given out iff all are cooling down |
| `KeyPool.AcquiredIsNearest` | scripts/llm_proxy.py:84-93 | the slot given out is the nearest free one after the cursor |
| `KeyPool.FreeKeyIsServed` | scripts/llm_proxy.py:81-93 | a key that stays free is given out within as many turns as it is places away, whatever else is benched meanwhile |
| `KeyPool.EachSlotOnce` | scripts/llm_proxy.py:81-93 | as many turns as slots, none cooling, use every slot exactly once |
| `ProxyForward.Forward` | scripts/llm_proxy.py:142-228 | with short attempts, and other requests disturbing the pool: it stops after at most 60 waits of 1500 ms and 61 passes over the keys, relays the last reply, gives up only after the 60 waits, fails over only on transport errors, 429 and 5xx, and benches one key for each failed attempt and none for a success |
| `ProxyForward.FreeKeyIsUnused` | scripts/llm_proxy.py:164-202 | between two waits short attempts never come back to a key |
| `ProxyForward.NeverStopsIff` | scripts/llm_proxy.py:195-202 | attempts all failing in transport after d go on for ever iff (keys - 1) x d >= cooldown |
| `Watchdog.TurnHistory.Append` | deploy/turn_builder.py:31-41 | the history becomes the last max_tail of itself and the record |
| `Watchdog.Drive` | deploy/watchdog.py:449-572 | stops at the first turn with an exit due, by turn max_total_turns, with at most max_total_turns - 1 invocations, keeping the records of the last three |
| `Watchdog.EndsAtIff` | deploy/watchdog.py:466-559 | a run ends at its first turn at which the goal is met, the turns or the time are up, or the last five invocations failed, and the exit code is 0, 1, 2 or 3 by the first of these that holds |
| `Watchdog.EndsOnce` | deploy/watchdog.py:472-559 | a run ends at one turn and with one code |
| `Watchdog.ErrorsAtLeastIff` | deploy/watchdog.py:536-562 | the counter reaches m iff the last m invocations all failed |
| `Watchdog.LlmErrorsIff` | deploy/watchdog.py:553-559 | exit 3 iff the last five invocations failed with no other exit due, and it is the first such turn |
| `Watchdog.GoalBeatsTheCaps` | deploy/watchdog.py:478-505 | a run ends at a reached turn with exit 0 iff the goal is met there, even at the caps |
| `Watchdog.TurnsExhaustedIff` | deploy/watchdog.py:491-497 | exit 1 iff the cap is reached with the goal unmet |
| `Watchdog.WallClockIff` | deploy/watchdog.py:499-505 | exit 2 iff the time is up at that turn with turns left and the goal unmet, and it was not up at any earlier turn |
| `Watchdog.KeptRecords` | deploy/watchdog.py:536-568 | what is kept are the last three invocations in order, each with its prompt and its output, or a notice with the first 600 characters of its complaint |

## Left out

- Signing, hashing, key derivation and `verify.py`: parameters with the assumptions above. `signed_log.py`
  contributes only those assumptions; its integrity check and witness entries are not part of this model.
- Several processes writing one file, partial lines and fsync: each file has one writer.
- ManifestIdentity.SameIdSameManifest: plainness of every line is sufficient for two whole texts, not
  necessary, because a line that is not plain may be one whose reading nothing uses; for a line among any
  plain lines it is exact (`PlainIffHarmless`).
- ManifestSyntax.ParseManifest: decimal digits, word characters and letter case are ASCII; Python also
  accepts other Unicode digits in numbers, other word characters after a hash, and lowers letters such as
  the Kelvin sign. Python's limit on the length of integer literals and its Unicode encoding errors are
  not modelled.
- AgentRuntime.ToolCheck: a tool called with a boolean for an amount is outside the typed model, and so
  are malformed entries other than a missing amount or cost, which replay drops.
- AgentRuntime.OpenClawAgent.WriteIfAllowed: the community state is asked for before any guard; the original
  checks a positive amount and enabled growth first, so a call refused there leaves its memo unrefreshed.
- AgentRuntime.OpenClawAgent.HandleCommunityJoin: the reply message and the audit record of a join are not modelled.
- PullDriver.PullLoop.Run: sleeping, cancellation and logging between visits; a visit is given the clock it reads.
- ProxyForward.Forward: time is in whole milliseconds; request headers and bodies are left out.
- ClawCommunity.Community.RebalanceMembers: members with equal joining times stand in whatever order the
  dictionary has, which saving and loading may change; every result holds for each such order.
- ClawCommunity.Community.constructor: a capacity below one and a zero join fee make the original divide
  by zero, and are excluded or left unmodelled; trust scores, file catalogues and audit records are left out.
- Watchdog.Drive: snapshots, prompts and the two drivers are inputs; pacing between turns is left out.
- The overlay registry, descriptor compilation and the sandbox, the security gateway and reputation
  modules, torrents, traces, the command line and all transports (IPv8, HTTP, MCP, subprocesses).
- Join requests and peer introductions over IPv8: their effect on the ledger is the deposit in `Agreement`
  and `AgentRuntime`; the pending-join futures and peer metadata are not part of this model.
