# Verified model of the account load balancer

This project models the stateful core of the load balancer in Dafny and proves what that core is for. Each
component of the program is one or a few modules. Pure code is modelled by functions. Code that updates tables,
buffers or local variables is modelled by classes and loops whose contracts tie them to those functions, and the
properties are lemmas about the functions, most of them over every run of the component.

| modules | component |
|---|---|
| `RouteKeys`, `Routes`, `RouteStore` | route keys, route commands and guarded binds, and the same operations on tables in place (`src/db.rs`) |
| `RouteInvariant`, `RouteBinds`, `RouteRuns`, `RouteOutcomes` | the routing invariant, and safety over every run |
| `RouteBindEffects`, `RouteCommandEffects` | every answer a bind or a command gives, and everything it leaves behind |
| `RoutePending`, `RouteOversized`, `RouteQueue`, `RouteStarved`, `RouteServed` | pending commands: their retries, what ends them, and the order they are listed in |
| `Catalog`, `CatalogGraph`, `CatalogRoots`, `CatalogTrees`, `CatalogAliases` | the rollout graph behind a session command (`src/cli.rs`) |
| `Registry`, `RegistryEffects`, `RegistryStore`, `RouteSignals` | live connections and reroute signals (`src/session_registry.rs`), and which of them a move reaches |
| `Bridge`, `BridgeTrace`, `BridgeRouting` | the WebSocket bridge loop (`src/websocket.rs`), its trace event by event, and what its binds let through |
| `TailCapture`, `Sse`, `SseStream`, `ResponseStream` | streamed responses: the capture ring, the terminal-event detector, the stream's log and lease (`src/proxy.rs`) |
| `Failover`, `Leases` | the failover loop and in-flight accounting (`src/proxy.rs`, `src/db.rs`) |
| `Scoring`, `ScoreOrder` | the order in which accounts are chosen (`src/db.rs`) |
| `Pricing`, `CostLedger`, `CostRuns`, `CostCharges`, `CostCover`, `CostStore` | cost estimates and exactly-once cost totals (`src/pricing.rs`, `src/db.rs`) |
| `TokenRefresh` | single-flight token refresh (`src/upstream.rs`) |
| `Base` | optional values, results, and the SQL `MAX` aggregate |

How the model reads the program:

- A SQLite transaction is one atomic step on maps. Runs interleave such steps in any order.
- A connection captures an epoch as the root and generation some claimed key has at that moment. The model allows
  any claimed key, so it covers whichever key the program's own tie-break picks.
- Pruning deletes an arbitrary set of sticky rows; which ones depends on clocks.
- Session fingerprints are text, valid when they are 64 lower-case hexadecimal digits; in the registry they are
  numbers. Their hash function is a parameter and need not be injective. Accounts, UUIDs and encrypted tokens are
  numbers. A fresh UUID or a fresh nonce is a number not used before.
- Route generations are 64-bit: a command that would pass the maximum fails. Prices use the program's checked
  64-bit arithmetic. Scores use real numbers.
- The network, the clock and the database's answers are parameters: events, scripts and environments that the
  theorems quantify over.

Where the program and its promises differ, the model follows the program:

- The repository's README promises (line 238) that pending actions are retried when an account becomes eligible.
  Three things can keep one from its account, and each is given exactly.
  - A retry names every key of its tree, and a request may name at most 500: the retry is accepted if and only if the
    tree has at most 500 keys (`RetryAcceptedExactly`, `RetrySettlesExactly`). `PendingTreeOutgrowsRetry` is a run that
    crosses that line.
  - A tree also stops waiting when a connection that still holds its epoch binds. That happens to a reroute only, and
    `PendingEndsExactly` gives all the ways a tree stops waiting. A reroute that finds no account moves nothing; an
    open connection keeps its epoch if and only if its tree stays the root and merges no newer tree
    (`EpochSurvivesExactly`). Then its next bind keeps its account and the reroute is over
    (`OldConnectionCancelsReroute`).
  - A pass of the scheduler lists the hundred roots updated longest ago, and a refused retry updates nothing. After
    enough passes a root is listed if and only if fewer than a hundred oversized trees were in front of it when it began
    to wait (`ListedExactlyInTime`). On the one side it is on the listing after `w - 99` passes, where `w` roots are in
    front (`ListedInTime`, `HopefulListedInTime`), and `RouteServed` builds a run in which that happens. On the other
    it is never listed (`OversizedTreesStarve`), and `RouteStarved` builds such a run from an empty database.
- A reroute signal is not lost while the signals for each root arrive in generation order (`NoRerouteLost`), whatever
  other keys they share. `RunLosesNoneExactly` gives the exact condition for a run and `SignalExact` for one signal, to
  be checked before it is delivered; `LateSignalIsLost` is a run in which one is lost.
- A connection that registers late is signalled at once if its root hash was signalled before. If only an alias was,
  that holds when its known aliases are filed under one root (`LateAliasSignalled`); otherwise it can start out silent
  (`LateAliasIsMissed`), and is refused when it binds.
- A connection that goes is meant to be cleaned up by its token. It is forgotten if and only if every root it was ever
  filed under is an alias of it or its last root (`ForgottenExactly`); one that two signals moved is still counted under
  the root in between (`MovedTwiceIsRemembered`).
- A signal names the keys of its request, while a move merges whole trees. `MovedConnectionTold` says exactly which
  connections of a moved tree hear of it; the others are refused when they bind.
- `tree_for` alone may return part of a component. It returns all of it if and only if everything connected to the id
  resolves to the same root (`TreeIsComponentExactly`). `mutation_tree_for` never returns a part, because it refuses
  the forks that discovery flags; `UnflaggedForkIsPartial` shows the flag is needed.
- Complete, partial and unpriced requests add up to all requests for ever if and only if they do at the start and the
  request counts cover the retained logs that can be priced (`CountsAddUpForEver`; `CountsAddUpExactly` for one
  batch). Request counts begin at zero in a migration that keeps existing logs, and `UncoveredLogBreaksCounts` is
  that case.
- A refresh token that was checked under its lock stays the stored one until its caller is done, if and only if its
  account is neither imported nor deleted in between (`StaysStoredExactly`); imports and deletions take no lock.
- A token is replaced by at most one exchange, but it can be sent twice: exactly when a caller gives up between
  sending it and storing the answer, because it was dropped or its exchange failed (`SentAgainExactly`).

## Model

| member | source | states |
|---|---|---|
| RouteKeys.ValidationExact | src/db.rs:1894-1943 | a key list is accepted exactly when it is short enough, every key is well formed and no fingerprint has two kinds; the result is the set of trimmed keys, once each |
| RouteKeys.CollectSound | src/db.rs:1904-1935 | deduplication loses no key and invents none |
| RouteKeys.CollectComplete | src/db.rs:1904-1935 | a list is rejected only for a malformed key or two kinds for one fingerprint |
| RouteKeys.TrimExactly | src/db.rs:1904-1935 | a kind loses the white space at both ends, all of it, and nothing else |
| RouteKeys.ValidateKeys | src/db.rs:1894-1943 | the loop with its early exits returns what the specification says |
| RouteInvariant.CommitRooted | src/db.rs:1188-1230 | merging trees leaves every root a key of its own tree and every key in an existing tree, so the cascade drops nothing |
| RouteInvariant.CommitKey | src/db.rs:1188-1230 | where a claimed key ends up: in the command's root if its tree was merged, else where it was |
| RouteInvariant.CommitGrows | src/db.rs:1386-1489 | a committed command loses no key, lowers no generation a key sees, splits no tree and undoes no claim |
| RouteInvariant.SettledRoutes | src/db.rs:1345-1384 | a command that does not move finds every key of its tree already routed to its account |
| RouteInvariant.CommitKeepsInv | src/db.rs:1386-1489 | a committed command keeps the whole routing invariant: self-rooted trees, row generations at most the tree's, rerouted trees unsplit |
| RouteInvariant.DryRunForetells | src/db.rs:1156-1177 | a dry run changes nothing and returns the status, accounts, generation, counts or error that the real run returns from the same state |
| RouteInvariant.ApplyUnfolds | src/db.rs:1166-1177 | the root row a real run inserts before it reads changes neither its decision nor its result |
| RouteBinds.EpochBindRow | src/db.rs:1684-1793 | what a successful bind leaves in the row of its root |
| RouteBinds.EpochBindKeepsInv | src/db.rs:1684-1793 | a bind at a captured epoch keeps the invariant and only grows the tables |
| RouteBinds.LegacyTarget | src/db.rs:1794-1880 | a bind without an epoch attaches its keys to one tree that is new or holds every claimed key of the request and that no command has touched |
| RouteBinds.LegacyBindKeepsInv | src/db.rs:1794-1880 | a bind without an epoch keeps the invariant and only grows the tables |
| RouteBinds.BindKeepsInv | src/db.rs:1673-1884 | every bind keeps the invariant, and one that does not return true changes nothing |
| RouteBindEffects.BindAnswersExactly | src/db.rs:1673-1884 | a bind is a bad request exactly for a malformed list, refused exactly when its epoch is not current or a key is in another tree or, without an epoch, when a command has claimed a key or two keys are in different trees, an error exactly for an unknown account, and true otherwise |
| RouteBindEffects.BindLeavesExactly | src/db.rs:1720-1880 | after a bind that returns true every key of its list is in one tree, under the kind it came with, and has a row for the bound account at the tree's generation; nothing else changes, but that a rerouted tree follows the account with all its rows and its root |
| RouteBindEffects.PreferredNames | src/db.rs:1795-1802 | a new tree is named by the first session id of the list, or by its first key if there is none |
| RouteBinds.PruneKeepsInv | src/db.rs:2409-2412 | pruning any set of sticky rows keeps the invariant and loses no key |
| RouteBinds.DeleteAccountKeepsInv | src/db.rs:531-540 | deleting an account, with its cascades, keeps the invariant, claims and generations |
| RouteBinds.ApplyKeepsInv | src/db.rs:1111-1492 | a route command keeps the invariant whether it commits, fails or only previews, and a failed one changes nothing |
| RouteCommandEffects.CommandAnswersExactly | src/db.rs:1111-1375 | a command is a bad request exactly for malformed keys, a root that is not among them or an action that does not fit its target; not found exactly for an unknown target or a session nobody has heard of; an overflow exactly when it would move a tree at the highest generation; and it succeeds otherwise |
| RouteCommandEffects.MovesExactly | src/db.rs:1345-1375 | a command moves its tree exactly unless the list adds nothing to it, all of it is routed to the account at its generation, and no live connection uses another account |
| RouteCommandEffects.CommandLeavesExactly | src/db.rs:1291-1492 | the tables and the response of every committed command: which trees merge, which keys and kinds they get, which rows are rewritten for which account at which generation, and the counts and labels reported; Fallback says that another account serves the tree than the one asked for, Applied that the asked one does and something moved, NoOp that it does already, Pending that none does |
| RouteRuns.RunKeepsInv | src/db.rs:1111-1492 | the invariant holds in every state of every run, and later states only grow earlier ones |
| RouteRuns.MoveRaises | src/db.rs:1364-1375 | a moving command raises the generation seen from every key it touches |
| RouteRuns.StaleBindRefused | src/db.rs:1684-1719 | an epoch older than the tree its root is now in can neither bind nor change anything |
| RouteRuns.StaleBindSafety | src/db.rs:1684-1719 | once a moving command touched an epoch's tree after the capture, every later bind with that epoch changes nothing and, for valid keys, returns false, in every run |
| RouteRuns.DisagreementMoves | src/db.rs:1345-1384 | a command moves whenever some key of its tree has no row for the account it settles on |
| RouteRuns.RerouteRefusesOldConnection | src/db.rs:1684-1719 | a connection on an account a command turns away from cannot bind again with the epoch it holds |
| RouteRuns.LegacyBindSafety | src/db.rs:1829-1836 | no bind without an epoch ever succeeds on a key that some command has claimed |
| RouteRuns.FreshBindAccepted | src/db.rs:1684-1793 | a current epoch does bind, for an existing account and keys of its own tree or of none |
| RouteRuns.MovedTreeUndisturbed | src/db.rs:1673-1884 | a moved tree and its rows stay as the move left them until a newer command or a newer epoch acts on them, except for pruned or cascaded rows |
| RouteRuns.NoObsoleteRestore | src/db.rs:1673-1884 | obsolete connections never bring an old account back: any sticky row the moved tree still has names the account the move chose |
| RouteOutcomes.ReroutedTreeNeverSplits | src/db.rs:1720-1793 | in every state of every run, a sticky row of a rerouted tree with an effective account names that account at the tree's generation |
| RouteOutcomes.TreesOnlyCoarsen | src/db.rs:1188-1230 | keys once in one tree stay together in every later state |
| RouteOutcomes.CommandRoutesWholeTree | src/db.rs:1389-1471 | after a committed command with an effective account, every key of the merged tree has a row for that account, its own kind and the tree's generation |
| RouteOutcomes.RepeatIsQuiet | src/db.rs:1345-1384 | repeating a command with unchanged eligibility and choice and no other live account leaves routes, keys and generations as they are |
| RoutePending.RunKeepsStored | src/db.rs:1904-1935 | in every state of every run the tables hold only keys that validation accepts again |
| RoutePending.RetryAcceptedExactly | src/db.rs:1494-1540 | in every state of every run the request rebuilt for a pending tree passes validation if and only if the tree has at most 500 keys |
| RoutePending.RetrySettlesExactly | src/scheduler.rs:67-121 | with an account to serve it, the retry of a pending tree finds it one, and routes every key of it, if and only if the tree has at most 500 keys |
| RoutePending.OversizedPendingIsStuck | src/db.rs:1895-1903 | a larger pending tree is refused whatever accounts become eligible, and nothing changes |
| RoutePending.PendingRetrySucceeds | src/scheduler.rs:67-121 | the state after an accepted retry with an account: the root is no longer pending and every key of the tree has a row for that account at the tree's generation |
| RoutePending.PendingEndsExactly | src/db.rs:1760-1793 | a step ends a tree's waiting if and only if it is a command that finds the tree an account, or a bind at the current epoch of a tree that waits for a reroute |
| RoutePending.PendingLastsExactly | src/db.rs:1111-1492 | over a run a tree waits on if and only if no such step happens |
| RoutePending.EpochSurvivesExactly | src/db.rs:1386-1489 | a command that finds no account leaves the epoch of a tree it touches current if and only if that tree keeps its root and no merged tree has a higher generation |
| RoutePending.OldConnectionCancelsReroute | src/db.rs:1760-1793 | after a reroute that found no account and left a connection's epoch current, the connection's next bind succeeds, gives the tree its account, and leaves nothing to retry; if the epoch was lost, that bind is refused |
| RouteQueue.ListedExactly | src/db.rs:1498-1511 | a pending root is in the scheduler's listing if and only if fewer than a hundred pending roots were updated before it |
| RouteQueue.QueueDrains | src/scheduler.rs:82-121 | while a waiting root is not updated itself and its own millisecond is over, nothing gets in front of it, and every accepted retry in front of it brings it a place nearer |
| RouteQueue.PassDrains | src/scheduler.rs:67-121 | a pass of the scheduler that does not list a waiting root brings it nearer, unless every root on the list is still in front of it and hopeless; a retry carries the keys of any moment since the listing |
| RouteQueue.ListedInTime | src/scheduler.rs:67-121 | a waiting root with `w` pending roots in front is on the listing after `w - 99` passes or on an earlier one, as long as no pass ends with a hundred hopeless roots of its list in front |
| RouteQueue.HopefulListedInTime | src/scheduler.rs:67-121 | if its own retry would be accepted, it is on exactly that listing |
| RouteQueue.ListedExactlyInTime | src/scheduler.rs:67-121 | both sides at once: after that many passes the root is listed if and only if fewer than a hundred oversized roots were in front of it when the wait began, as long as no other root in front outgrows its retry and nothing but retries acts on those |
| RouteServed.ServingRunExists | src/scheduler.rs:67-121 | from every database the migration leaves there is a run in which a hundred pending trees are in front of one whose retry would be accepted, and one pass puts it on the next listing |
| RouteQueue.SomeRetryAccepted | src/scheduler.rs:82-121 | with fewer than a hundred oversized trees in front of it, every listing without it has a retry that is accepted |
| RouteQueue.OversizedTreesStarve | src/scheduler.rs:82-108 | with a hundred oversized trees in front of it a root is never listed, for as long as nothing but retries and unrelated steps happens |
| RouteStarved.HundredInFront | src/scheduler.rs:82-108 | the run that gets there: from an empty database, a command and a response for each of a hundred trees make them oversized and pending, in front of a pending tree of one key |
| RouteStarved.StarvingRunExists | src/scheduler.rs:82-108 | there is such a run from every database the migration leaves |
| RouteStarved.SmallTreeStarves | src/scheduler.rs:82-108 | however that run goes on, while the hundred trees are spared the small tree is never listed |
| RouteQueue.RetriesLeaveBlockers | src/scheduler.rs:82-108 | no retry built from the present keys, accepted or refused, changes that |
| RouteOversized.PendingTreeOutgrowsRetry | src/db.rs:1720-1793 | the run that gets there: one command on an empty database makes a pending tree of 500 keys, the next response of its connection adds one, and every retry from then on is refused |
| RouteStore.Store.ApplyAction | src/db.rs:1111-1492 | the in-place transaction has exactly the result and the effect of the command's specification |
| RouteStore.Store.DecideAction | src/db.rs:1188-1384 | the queries and branches before the writes, with the loops that overlay the keys and collect the previous accounts, reach exactly the specified decision or error |
| RouteStore.Store.BindAffinities | src/db.rs:1673-1884 | the in-place bind, with both branches and their loops, has exactly the result and the effect of the bind's specification |
| RouteStore.Store.RouteAll | src/db.rs:1427-1471 | the row-by-row rewrite of sticky rows is the rewrite of the whole tree |
| RouteStore.Store.PruneHistory | src/db.rs:2409-2412 | pruning removes exactly the expired sticky rows, keeps the others as they are, and keeps the invariant |
| RouteBinds.DeleteAccountForgets | migrations/202607230001_session_route_actions.sql:14-19 | after a deletion no sticky row and no root names the account, its own rows are the only ones gone, and every key, generation, action and status is kept |
| RouteStore.Store.DeleteAccountRow | src/db.rs:531-540 | deleting an existing account leaves nothing that names it and changes nothing else; a missing account is reported without a change |
| Catalog.SessionCatalog.InsertNode | src/cli.rs:680-694 | the first node of an id stays, only its time grows, differing links are recorded as an issue, and other nodes are untouched |
| Catalog.SessionCatalog.Discover | src/cli.rs:593-678 | discovery finds exactly the nodes its files give, with the links of one of them and the newest time of all, and exactly the issues: wrong file names, unreadable files, differing parent and fork ids, and clashing links for one id |
| Catalog.ReadingOrderIsFree | src/cli.rs:593-678 | the order of reading changes no issue, no id and no trusted node |
| Catalog.RootSearch.Resolve | src/cli.rs:700-743 | the recursive search with one shared visiting set returns what the pure search returns and restores the set |
| CatalogRoots.ResolvedExactly | src/cli.rs:696-743 | a rollout resolves to a root if and only if no link from it closes a loop and some labels agree with all the metadata its links lead to, no suspect id among them, and give it that root |
| CatalogRoots.NodesByFiles | src/cli.rs:593-694 | the ids found are those some file states, with links some file states and the newest time of all its files |
| CatalogRoots.IssuesByFiles | src/cli.rs:593-694 | the suspect ids are exactly those of misnamed, two-parented or unreadable files and those on whose links two files disagree |
| CatalogGraph.ResolvedIsAcyclic | src/cli.rs:700-743 | success means no cycle is reachable from the node |
| CatalogGraph.CycleIsReal | src/cli.rs:700-743 | a cycle is reported only if the links reach one |
| CatalogGraph.ContextExact | src/cli.rs:700-743 | the result for a node does not depend on the path the search came by, except when the path closes a cycle |
| CatalogGraph.RootIsFixed | src/cli.rs:696-743 | a resolved root resolves to itself |
| CatalogTrees.SessionTrees | src/cli.rs:745-787 | the loop returns exactly the roots that nodes resolve to, each with all that contributes to it and its newest time |
| CatalogTrees.TreesPartition | src/cli.rs:745-787 | the trees are pairwise disjoint and every resolvable node is in exactly the tree of its root |
| CatalogTrees.ConnectedIds | src/cli.rs:821-848 | the fixpoint loop returns exactly the ids connected to the given one |
| CatalogTrees.ComponentHasOneRoot | src/cli.rs:802-819 | in a component without issues whose nodes all resolve, every id has the same canonical root |
| CatalogTrees.TreeIsComponentExactly | src/cli.rs:789-800 | the tree of an id is its whole component if and only if everything connected to it resolves to the same root |
| CatalogTrees.TreeFor | src/cli.rs:789-800 | success exactly when the id resolves; then root, members and newest time are those of its tree, which is the component exactly in that case |
| CatalogTrees.MutationTree | src/cli.rs:802-819 | success if and only if the component is free of issues and resolves, and then the members are exactly the component: never part of a tree |
| CatalogTrees.MutableFromAnyMember | src/cli.rs:802-819 | every member of a component gives the same answer and the same component |
| CatalogTrees.UnflaggedForkIsPartial | src/cli.rs:639-648 | without the discovery flag, differing parent and fork ids would make an action act on part of a tree |
| CatalogAliases.SessionTreeAliases | src/cli.rs:930-952 | all members' fingerprints under every alias kind, each once and beside the kind it was made with, the root's first; or nothing if they are more than 500 |
| CatalogAliases.FingerprintsExactly | src/cli.rs:930-952 | the fingerprints of a tree are those of each member under each alias kind |
| CatalogAliases.KindsNamed | src/cli.rs:551-556 | the alias kinds, by name |
| Registry.RegisterKeeps | src/session_registry.rs:56-116 | a new connection is indexed under all its keys and its root, and starts signalled if its root's generation is newer |
| Registry.UnregisterKeeps | src/session_registry.rs:194-209 | removing a connection keeps every other one covered and signalled |
| Registry.SharedKeyMatches | src/session_registry.rs:230-248 | a live connection that shares any key with a signal is matched by it |
| Registry.SignalExact | src/session_registry.rs:135-192 | after a signal no obsolete connection lacks one, if and only if it overlooks none of those it re-roots |
| Registry.RunLosesNoneExactly | src/session_registry.rs:135-192 | a run loses no signal if and only if none of its signals overlooks a connection it re-roots |
| Registry.NoRerouteLost | src/session_registry.rs:135-192 | while the signals for each root arrive in generation order, every live connection older than its root's generation carries a newer signal, in every state of every run |
| Registry.RecordsFollowMerges | src/session_registry.rs:157-170 | with signals that share a key in generation order no reroute is lost, and a recorded root only ever merges into a root with no older a record |
| Registry.SignalReachesSharedKeys | src/session_registry.rs:135-192 | a connection that shares a key with a newer signal carries one newer than itself from then on |
| Registry.RegistrationSignalExactly | src/session_registry.rs:56-82 | a new connection starts out signalled exactly when the root it is filed under has a newer record |
| Registry.LateRegistrationSignalled | src/session_registry.rs:56-116 | with signals that share a key in generation order, a connection registering late under a root hash already signalled starts out signalled |
| Registry.LateAliasSignalled | src/session_registry.rs:66-76 | so does one with an unknown root hash that shares an alias with the signal, if all its known aliases are filed under one root |
| Registry.LateAliasIsMissed | src/session_registry.rs:66-76 | with aliases under two roots it can start out silent: a run of three operations |
| Registry.LateSignalIsLost | src/session_registry.rs:135-192 | the run of three operations, with two signals for one root out of order, that ends with a connection obsolete and silent |
| RegistryEffects.FiledExactly | src/session_registry.rs:63-80 | the root a new connection is filed under: that of its root hash, else the least root of an alias, else its own hash |
| RegistryEffects.RegisterLeaves | src/session_registry.rs:56-116 | everything a registration changes |
| RegistryEffects.SignalLeaves | src/session_registry.rs:135-192 | everything a signal changes: matched connections move to the root and, if older, get its generation; the named keys are filed under the root and its record does not fall |
| RegistryEffects.UnregisterLeaves | src/session_registry.rs:194-210 | everything a removal changes |
| RegistryEffects.MatchedExactly | src/session_registry.rs:230-250 | a signal matches what is found under a key it names or under the root of one |
| RegistryEffects.IndexedExactly | src/session_registry.rs:135-192 | over every run a live connection is found under its aliases and every root it was ever filed under, and nowhere else |
| RegistryEffects.ReachedExactly | src/session_registry.rs:230-250 | so a signal reaches it exactly when it covers one of these |
| RegistryEffects.ForgottenExactly | src/session_registry.rs:194-210 | a connection that goes leaves no trace if and only if each root it was filed under is an alias or its last root |
| RegistryEffects.MovedTwiceIsRemembered | src/session_registry.rs:194-210 | a run of four operations after which a connection that is gone still matches a signal |
| RegistryStore.ConnectionRegistry.AddConnection | src/session_registry.rs:56-116 | the in-place registration has exactly the specified effect |
| RegistryStore.ConnectionRegistry.Signal | src/session_registry.rs:135-192 | the in-place signal, with its loop over matched tokens, has exactly the specified effect and counts |
| RegistryStore.ConnectionRegistry.Remove | src/session_registry.rs:194-209 | the in-place removal has exactly the specified effect |
| RegistryStore.ObsoleteMustReconnect | src/websocket.rs:562-585 | a waiting connection reconnects exactly when it carries a signal, and, with each root's signals in order, always when it is obsolete |
| RouteSignals.MoveIsSignalled | src/admin/mod.rs:301-311 | a command that moves is always followed by its signal: applied or a fallback, at a positive generation |
| RouteSignals.MovedConnectionTold | src/admin/mod.rs:285-311 | a live connection whose epoch's tree a command moves is told to reconnect if and only if the registry matches it with the keys the command named; told or not, no bind with its epoch succeeds again |
| RouteSignals.RetryReachesWholeTree | src/scheduler.rs:82-121 | a retry names its whole tree, so its signal reaches every connection registered under any key of it |
| Bridge.RunBridge | src/websocket.rs:312-560 | the bridge loop over its own variables has exactly the effects of its event-by-event specification |
| Bridge.LiveEnds | src/websocket.rs:312-560 | for any events the effects keep to the connection automaton and end between turns |
| Bridge.EveryTurnEndsOnce | src/websocket.rs:678-745 | every started turn is leased once, given up once and logged once, whichever way the loop ends; dropped with its connection it is given up without a log |
| Bridge.ClosedForItsCause | src/websocket.rs:347-378 | the client is sent away for a reroute exactly when the loop ends on a newer signal or a refused bind, for a restart exactly when it ends on a shutdown, and neither ever passes without ending the loop |
| Bridge.ForwardedOnlyBound | src/websocket.rs:395-449 | a request goes upstream only right after its account was acquired and, with affinities, its route was bound; the first turn carries the connection's selection reason and later ones are reuses |
| Bridge.ToldBeforeLogged | src/websocket.rs:512-560 | on a reroute or restart the client is closed before the interrupted turn is logged, and afterwards nothing is leased, forwarded or relayed |
| BridgeTrace.TraceExactly | src/websocket.rs:347-560 | the whole trace of a connection, event by event: what each causes given the turn that runs, which one ends the loop, and what follows it |
| BridgeTrace.LoggedAsEnded | src/websocket.rs:678-731 | a turn is logged with an outcome if and only if that is how it ended: the terminal event's own outcome, disconnected for a new request or a plain end, rerouted or restarted for those |
| BridgeRouting.ObsoleteConnectionForwardsNothing | src/websocket.rs:395-449 | once a moving command touched the tree of a connection's epoch, no later request on that connection goes upstream, whatever happens to the tables or the connection |
| BridgeRouting.ClaimedConnectionForwardsNothing | src/websocket.rs:395-449 | the same for a connection that holds no epoch, once a command has claimed one of its keys |
| TailCapture.Capture.Push | src/proxy.rs:694-722 | the ring holds the last bytes of what it held plus the new ones |
| TailCapture.LastIsSuffix | src/proxy.rs:811-813 | the last bytes are a suffix, of the length asked for or the whole |
| TailCapture.ConcatJoins | src/proxy.rs:390-396 | chunks are strung together in order |
| TailCapture.CaptureIsTail | src/proxy.rs:694-733 | after any pushes of any sizes the capture is the last `capacity` bytes of everything pushed |
| TailCapture.CaptureStream | src/proxy.rs:694-733 | the same for the buffer object |
| SseStream.FindTerminalMeets | src/proxy.rs:781-804 | the search returns the leftmost terminal marker, and nothing exactly when there is none |
| SseStream.VerdictExactly | src/proxy.rs:781-809 | the verdict on a stream is the kind of its first marker, once a blank line follows |
| SseStream.MarkerSpelled | src/proxy.rs:782-794 | the markers, spelled out |
| SseStream.MarkerCarrySuffices | src/proxy.rs:776-778 | searching the 64-byte carry finds what searching the whole stream finds |
| SseStream.BoundaryCarrySuffices | src/proxy.rs:755-763 | after a marker, three carried bytes are enough to notice the end of the event |
| SseStream.ObserveExact | src/proxy.rs:750-779 | on each chunk the detector reports what a search of everything seen so far reports |
| SseStream.DetectorExact | src/proxy.rs:749-813 | for every cut of a stream the detector first fires on the chunk that completes the event of the leftmost marker, with the whole-prefix verdict |
| SseStream.ChunkingIndependence | src/proxy.rs:749-813 | two cuts of the same bytes get the same verdict |
| SseStream.SseTerminalDetector.ObserveChunk | src/proxy.rs:750-779 | the detector object returns the verdict on all bytes seen |
| ResponseStream.StreamBody | src/proxy.rs:376-481 | the body is passed on unchanged and in order; its lease is given back exactly once, also when the client leaves; at most one log line is written, with the verdict and captured bytes of the first terminal event, or of the end |
| ResponseStream.LineTells | src/proxy.rs:400-470 | the line of a stream has the code of its first complete terminal event, or says whether the stream broke off |
| ResponseStream.ErrorByType | src/proxy.rs:420-425 | which code each event type is logged with: none for a completed response |
| Failover.TriedOnce | src/proxy.rs:83-335 | no account is tried twice, at most the attempt limit are tried, each was eligible when chosen, and each but the last failed in a way worth retrying |
| Failover.TriedRightly | src/db.rs:580-660 | each attempt uses the session's own account if that is eligible, untried and still acquired, and otherwise the candidate that comes before all others; attempts go on until one ends the request, no account is left, or the limit is reached |
| Failover.AttemptsAllowedExactly | src/proxy.rs:358-364 | how many attempts a request may make |
| Failover.AbandonedExactly | src/proxy.rs:120-215 | a request is given up exactly when its caller is gone while an answer or fresh tokens are awaited |
| Failover.MarkedExactly | src/proxy.rs:160-290 | a failed attempt leaves a failed authentication on its account after a 401 or 403, and a cooldown otherwise |
| Failover.LoggedExactly | src/proxy.rs:160-330 | each attempt leaves one log line under its account with the reason of its failure, and none if it is given up or streams |
| Failover.RetriedExactly | src/proxy.rs:135-296 | another account is tried exactly after no reply, 401, 403, 429 or a server error, counting the second reply when tokens were refreshed; a stream starts exactly on success |
| Failover.EndingExplained | src/proxy.rs:135-335 | which attempt the client's response comes from: the last one if it answered or streams, else the latest that got a reply, and an own error only if none did |
| Failover.ProxyRequest | src/proxy.rs:67-335 | the loop tries and answers as specified, logs each failed or answered attempt once, and releases every lease exactly once, unless the last one goes with the stream |
| Leases.InflightExact | src/db.rs:1009-1098 | in-flight counts are the outstanding leases plus the releases that failed for good, and equal the outstanding leases exactly while none failed |
| Leases.ClampNeverActs | src/db.rs:1067-1082 | every release finds a count of at least one |
| Leases.AccountLease.Release | src/proxy.rs:830-844 | a lease gives its account back once, whether released or dropped |
| Leases.AccountLease.ReleaseNow | src/websocket.rs:993-1019 | the awaited release gives its account back once, on drop if the update failed |
| Scoring.PressureBounded | src/db.rs:755-800 | pressure lies in [-100, 100] and is 100 when telemetry is unknown |
| ScoreOrder.FreshExactly | src/db.rs:697-701 | how old telemetry may be: five minutes, or three refresh intervals if that is longer |
| ScoreOrder.ClassifiedExactly | src/db.rs:724-755 | how a window is taken: unknown exactly when it makes no sense or is neither just reset nor recently fetched |
| ScoreOrder.TimedPressure | src/db.rs:759-768 | the pressure of a timed window is its used share less its elapsed share, positive exactly when use runs ahead of time |
| ScoreOrder.PressureMonotone | src/db.rs:759-768 | of the same window more use is more pressure, strictly, and of the same use a later moment is less |
| ScoreOrder.UntimedScores | src/db.rs:759-789 | a window without a clock counts as used, one just reset as empty, an unknown one as full |
| ScoreOrder.WorstExactly | src/db.rs:792-802 | each column of an account is the worst of its windows |
| ScoreOrder.RoundedExactly | src/db.rs:847-856 | costs are rounded to the nearest six decimals, halves away from zero |
| ScoreOrder.BeforeIsByColumns | src/db.rs:847-875 | candidates are ordered by their columns, the first difference deciding |
| ScoreOrder.ChosenExactly | src/db.rs:806-876 | one is chosen exactly when an account is active, not cooling down, with no window used up and not excluded, and it is the first of these by its columns |
| ScoreOrder.LessUsedPreferred | src/db.rs:759-875 | of two candidates with the same load and the same timed windows the more used one is not chosen |
| ScoreOrder.LaterInWindowPreferred | src/db.rs:759-875 | with the same use and load the one later in its window is chosen, up to the rounding of costs |
| Scoring.UnknownExactly | src/db.rs:722-800 | telemetry counts as unknown exactly when some window is unreadable or stale, or there is no window |
| Scoring.ChosenFirst | src/db.rs:806-876 | the choice is a candidate before all others in the order, and there is one exactly when there is a candidate |
| Scoring.ChosenLoadBounded | src/db.rs:845-860 | the chosen account has at most 100 more requests in flight than any other candidate |
| Scoring.LoadBoundAttained | src/db.rs:845-860 | the bound of 100 is reached |
| Scoring.UnknownNeverPreferred | src/db.rs:845-860 | an account with unknown telemetry is not chosen over a known one with no more requests in flight |
| Pricing.CostIsExact | src/pricing.rs:205-247 | the checked cost is the exact cost in dollars at the published prices, and is absent exactly when that does not fit |
| Pricing.WideEnough | src/pricing.rs:234-247 | the 128-bit products never overflow |
| Pricing.CompleteExactly | src/pricing.rs:113-175 | a request is priced in full exactly when its counters are consistent and its exact cost fits, and then at that cost |
| Pricing.RangeExactly | src/pricing.rs:176-193 | a range is given exactly when the cache-write count is missing and the dearest count still fits; its ends are the exact costs of the extreme counts |
| Pricing.UnpricedExactly | src/pricing.rs:113-133 | which requests have an unknown model or missing usage, and that an unpriced estimate has no bounds |
| Pricing.RangeSoundAndTight | src/pricing.rs:176-193 | every cache-write count the request could have had prices as complete within the range, and both ends are attained |
| Pricing.RangePricedExactly | src/pricing.rs:176-193 | a missing count is priced exactly when every count it could stand for is |
| CostRuns.PriceOnce | src/db.rs:247-286 | a batch prices each of its rows that is still pending once, and nothing else |
| CostCharges.ChargedAtPrice | src/pricing.rs:113-250 | a row is charged its published price: once in full when its counts are known, as a range when only the cache writes are missing, and nothing otherwise |
| CostCharges.TokensCharged | src/db.rs:244-286 | the cached and cache-write tokens added are those reported, and never negative |
| CostCharges.LogLeaves | src/db.rs:2074-2156 | everything a logged request writes: its row with its estimate, and one request more, its charge, and one unpriced if it has no price, for its account |
| CostCharges.CommitLeaves | src/db.rs:244-320 | what a committed batch adds to each account's totals |
| CostCharges.PlusAdds | src/db.rs:290-320 | a charge is added column by column |
| CostCharges.DropLeaves | src/db.rs:531-540 | a deleted account leaves its logs behind without its name, and nothing else |
| CostCharges.ClampedExactly | src/db.rs:217-230 | how many rows a batch may select |
| CostRuns.ChargedExactlyOnce | src/db.rs:217-320 | over every interleaving of batches, new logs, pruning and account changes, each priced row is charged once at its own estimate and totals are the opening totals plus those charges |
| CostCharges.ChargedToItsAccount | src/db.rs:203-320 | over every interleaving each row of an account that was priced is charged to that account, once and at the row's own price |
| CostRuns.LowerNeverExceedsUpper | src/db.rs:290-320 | the lower total never passes the upper |
| CostRuns.CountsAddUp | src/db.rs:297-302 | complete, partial and unpriced add up to the requests in every run that starts covered, so the clamp never acts |
| CostRuns.CountsAddUpExactly | src/db.rs:297-302 | without that start, the condition under which one batch keeps the sum |
| CostCover.CountsAddUpForEver | src/db.rs:290-320 | from counts that are not negative, complete, partial and unpriced add up to the requests in every state of every run, if and only if they do at the start and each account's requests have room for its priced rows and its pending rows that can be priced |
| CostRuns.UncoveredLogBreaksCounts | migrations/202607220002_api_cost_estimates.sql:21-24 | a log that no request count includes makes the sum fail |
| CostRuns.BatchShrinksPending | src/db.rs:203-215 | between a batch's selection and its commit the backlog falls by at least the batch, whoever else is at work |
| CostStore.Ledgers.LogRequest | src/db.rs:2074-2156 | the in-place insert has exactly the specified effect, and none when its account does not exist |
| CostStore.Ledgers.SelectBatch | src/db.rs:221-240 | the batch is the smallest pending ids in order, as many as the clamped size allows, and empty only if nothing is pending |
| CostStore.Ledgers.PriceBatch | src/db.rs:244-286 | the loop fails exactly when some account's exact sum does not fit, and otherwise returns those sums |
| CostStore.Ledgers.CommitBatch | src/db.rs:244-320 | the batch commits exactly as specified, or changes nothing |
| CostStore.Ledgers.Backfill | src/db.rs:203-215 | the backfill ends; on success nothing is pending and the count is what was pending |
| TokenRefresh.OneLiveMutex | src/upstream.rs:106-115 | two callers keep the same mutex alive if and only if they refresh the same account, in every run |
| TokenRefresh.ExchangedOnce | src/upstream.rs:36-104 | each version of an account's tokens is replaced by at most one exchange, in every run |
| TokenRefresh.SentAgainExactly | src/upstream.rs:48-73 | a version is sent a second time if and only if a caller that had sent it gave up, dropped or refused, before it stored the answer |
| TokenRefresh.AbandonedVersionResent | src/upstream.rs:48-73 | then a waiting caller that saw the same version does send it again |
| TokenRefresh.NeverSentAfterReplaced | src/upstream.rs:48-73 | a refresh token is never sent once the replacement it was exchanged for is stored |
| TokenRefresh.StaysStoredExactly | src/upstream.rs:48-104 | from its check until a caller is done with it, its version stays the stored one if and only if the account is neither imported nor deleted meanwhile |
| TokenRefresh.CheckedStaysStored | src/upstream.rs:48-104 | the same from the step of the check on, whatever was stored before |
| TokenRefresh.ImportOvertakes | src/db.rs:322-370 | an import can replace a token between its check and its use |
| TokenRefresh.LockTable.AccountRefreshLock | src/upstream.rs:106-115 | the lock table drops dead entries and shares the live one |
| TokenRefresh.LockedExactly | src/upstream.rs:106-120 | entries without a live caller go, a live one is shared, and any other account gets a new mutex |

## Left out

- RouteStore.Store.DecideAction: a query is a function of the tables, such as the roots its keys are mapped to; it is not a scan of rows.
- RouteQueue.RetriesLeaveBlockers: takes retries built from the present keys; one built before its tree outgrew it is still accepted.
- RouteQueue.PassDrains: counts a retry only while the account asked for at the listing exists; once that is deleted, the retry fails and the next listing asks for a rebalance.
- RouteQueue.SomeRetryAccepted: passes over roots at the largest possible generation, whose retry fails with an overflow instead.
- Resolving a label or UUID to a route target: a command carries an account id.
- Timestamps other than those of pending roots: the choice among several claimed keys when an epoch is captured, and which rows pruning picks. `RouteQueue` takes any clock that never goes back.
- The texts of errors and session listings, and the order of members in a session tree and of its alias keys after the root.
- Reading rollout files: a catalog starts from parsed nodes and recorded issues.
- SQLite's switch from integers to floating point when a stored total passes 64 bits: ledger totals are unbounded.
- Floating-point rounding in scores: scores are real numbers, rounded to six decimals as the query does.
- Starting a backfill over after an error and the pause between batches.
- The sticky lookup's time-to-live and the reading of times as text: a selection is given the account it finds pinned, and times as numbers or unreadable values.
- The marks a failed attempt leaves on its account (cooldown, authentication failure) are named but not applied: each attempt reads a database of its own.
- A bridge task dropped while it waits inside one event, for instance between a turn's log and its release: a turn ends in one step of the loop.
- Bridge.EveryTurnEndsOnce: counts log attempts, because a log that the database refuses is only reported.
- Leases.ClampNeverActs: a release whose update took effect but was reported as failed would run again; the model takes a failed update as one without effect.
- Response-id affinities, usage figures taken from captured bytes, account states after terminal errors, and headers.
- Opening the upstream WebSocket: its account loop has the shape of the failover loop.
- Other processes on the same database, such as a migration run beside the server.
- Transport, TLS, time limits as durations, configuration, status output, quota parsing, and the admin interface.
