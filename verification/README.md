# Verification of the watcher core

This project models, in Dafny, the parts of the file watcher in which correctness is hardest to see,
and proves what they are for:

* **Ignore engine** (`Bytes`, `Matching`, `Utf8`, `Wildcard`, `Components`, `Word64`, `GlobMeaning`,
  `Globs`, `GlobMatcher`, `Normalisation`, `IgnoreCache`). One declarative meaning of a glob; the
  compiler, both wildcard matchers, the 64-bit automaton, the backward table and the per-thread
  directory cache are all proved to decide it.
* **Event coalescing** (`EventLog`, `EventList`, `EventHistory`). The list of events refines a history
  of present (path, kind) keys: every batch is the exact net change, and every exposed rename id is
  true.
* **Tree reconciliation** (`Subtrees`, `IdentityIndex`, `Decimal`, `ReconcilePlan`, `Reconcile`,
  `ReconcileNet`, `ReconcileMove`). What a full rescan reports, as a function of the two identity
  indexes, and exactly when that is the net change.
* **Backend lifecycle** (`Backend`, `BackendProtocol`, `BackendInvariant`, `BackendSafety`). The locked
  sections as methods, and the protocol of any number of concurrent callers as a state machine whose
  steps are those sections.
* **Linux moves** (`DirTree`, `InotifyMoves`, `InotifyTracking`, `InotifyChains`, `InotifyWatches`,
  `InotifyNet`, `Inotify`, `InotifyRuns`). Cookie-paired moves of whole subtrees, one after another,
  overlapping and over each other, what they report, and the accounting of shared watch descriptors.
* **Debouncer** (`Debounce`). A timed protocol of one thread and its triggers, with its latency bound.

Code that changes state is modelled by classes and loops, each proved against a function on values; the
lemmas are about those functions. Paths are byte strings. The filesystem, the kernel and the clock are
parameters: a directory's case policy is a fixed function of its text, a completed scan is an index,
`lstat`, `inotify_add_watch` and `inotify_rm_watch` are arguments, and time is a `real` in milliseconds.
Iteration over an unordered container is an arbitrary choice, so every result holds for every order.

Three promises do not hold as one might read them, and each has its exact condition and an input here. The
clean-up of globs also strips `\**`, which on POSIX changes what is ignored (`StripExact`,
`BackslashTailChanges`). A reconciliation whose inferred file rename left a place that another regular file
has taken reports that place as deleted although it is present, and one in which an identity switched its
kind in place misses the switch (`ReconcileExact`, `ReoccupiedHappens`, `SwitchHappens`). Moves of nested
directories that overlap in time, the inner one departing first, can leave subscriptions with a wrong path
or throw. If the outer one lands first, the paths are right exactly if it went to a path of the same length
(`DeliverOverlapping`, `OverlapHappens`); if the inner one lands first, exactly if each path it gave happens
to begin with where the outer one goes, so that hardly any such move comes out right (`DeliverInnerFirst`,
`OverlapInnerHappens`). If the outer one departs first, a rescan is due instead (`DeliverOuterDeparture`).

## Model

| member | source | states |
|---|---|---|
| Bytes.IsAsciiString | src/Glob.cc:31-36 | the scan is true exactly when every byte is below 0x80 |
| Bytes.EqualIgnoringCase | src/Glob.cc:142-151 | the POSIX comparison holds exactly for texts of one length that agree byte by byte after ASCII lower-casing |
| Bytes.FoldedMeans | src/Glob.cc:142-151 | equal up to ASCII case means equal length and at each index the same byte or two 32 apart of which the larger is `a` to `z` |
| Bytes.LoweredMeans | src/Glob.cc:38-46 | lower-casing keeps every letter and leaves no capital |
| Bytes.DescendantTransitive | src/Watcher.cc:468-473 | being at or below a directory is transitive |
| Bytes.DescendantMeans | src/Watcher.cc:468-473 | below a directory are exactly the paths that go on with a separator behind its own |
| Matching.Concat | src/Glob.cc:478-511 | concatenated patterns match exactly the concatenations of what they match, for stars over bytes, characters or components alike |
| Matching.StarFront | src/Glob.cc:227-229 | the star cell of both backward tables: a leading star matches nothing or swallows one value |
| Matching.SnocStar | src/Glob.cc:379-401 | the same star read from the right, which is what a forward step of the automaton adds |
| Utf8.Utf8Characters | src/Glob.cc:188-214 | the splitting loop returns the characters of the text |
| Utf8.Lossless | src/Glob.cc:188-214 | the characters concatenate back to the text, and each is one sequence of section 4 of RFC 3629 or a single byte |
| Utf8.WellFormedCharacters | src/Glob.cc:197-209 | text is well-formed in the sense of section 4 of RFC 3629 if and only if all its characters are sequences of that section, and then that is its only decomposition |
| Utf8.SplitsWellFormed | src/Glob.cc:188-214 | RFC sequences are recovered exactly whatever bytes follow them |
| Wildcard.MatchWildcardAscii | src/Glob.cc:58-97 | the greedy single-backtrack loop decides the declarative `*` relation on all byte strings, with or without case folding, and terminates |
| Wildcard.LastStarSuffices | src/Glob.cc:81-90 | why only the last star is ever retried: any match an earlier star could still find is reached by the newer one |
| Wildcard.NoRetryAtEnd | src/Glob.cc:93-96 | why nothing is retried once the value is used up |
| Wildcard.MatchWildcardUtf8 | src/Glob.cc:216-243 | the backward table decides the same relation over characters |
| Wildcard.FillCharacterRow | src/Glob.cc:225-239 | one row of that table is what is matched from that character of the pattern on |
| Wildcard.AsciiAgrees | src/Glob.cc:245-252 | on ASCII both matchers mean the same, with or without folding |
| Wildcard.WellFormedAgrees | src/Glob.cc:245-252 | case-sensitively both mean the same on all well-formed UTF-8 |
| Wildcard.LiteralMeaning | src/Glob.cc:247 | a pattern without `*` means byte equality, or equality up to ASCII case |
| Wildcard.CollapseStarRuns | src/Glob.cc:99-109 | the loop collapses every run of `*` to one |
| Wildcard.CollapseMeaning | src/Glob.cc:99-109 | collapsing runs of `*` changes nothing a component pattern matches |
| PathComponents.Components | src/Glob.cc:111-122 | the splitting loop returns the components, empty ones included, and none for the empty text |
| PathComponents.JoinSplit | src/Glob.cc:301-314 | the parent directory built from components is the text they came from, below the root |
| GlobMeaning.SameSteps | src/Glob.cc:279-314 | the automaton and the table ask the filesystem about the same directories if and only if the path has no leading separator or the policy does not tell `root` from `root/` |
| GlobMeaning.CompileMeaning | src/Glob.cc:330-356 | dropping repeated `**` parts and collapsing `*` runs preserves what a pattern matches, for every component sequence |
| GlobMeaning.CompileNoAdjacent | src/Glob.cc:332-334 | a compiled pattern has no two adjacent `**` |
| GlobMeaning.CollapsePartKind | src/Glob.cc:99-109 | in a compiled pattern only the part `**` has two stars in a row, and a part keeps or lacks its stars |
| GlobMeaning.AcceptsPrefixCuts | src/Glob.cc:435-440 | matching some leading run of components is matching the path cut at some separator |
| GlobMeaning.AcceptsPrefixHereditary | src/Glob.cc:404-441 | whatever a pattern ignores, it ignores everything below |
| GlobMeaning.LiteralStep | src/Glob.cc:245-277 | a part without `*` matches its own name, and where the directory folds case also every name that differs from it in ASCII case only |
| GlobMeaning.CaseBlind | src/Glob.cc:254-277 | where the directory folds case, ASCII case never matters, in the pattern or in the path, with or without `*` |
| GlobMeaning.LiteralIgnores | src/Glob.cc:404-441 | a pattern without `*` matches exactly the path with its components, each up to case where the directory it is in folds case, and ignores exactly that path and everything below it |
| GlobMeaning.StarSuffix | src/Glob.cc:245-277 | `*` before a text matches exactly the names that end in it |
| GlobMeaning.AnyDepth | src/Glob.cc:379-401 | `**` and a separator before a pattern match exactly what the pattern matches at any depth |
| Word64.ClearLowest | src/Glob.cc:381-383 | `x & (x - 1)` clears exactly the lowest set bit and decreases the word |
| Word64.BitShift | src/Glob.cc:401 | below 2^63 the shift by one moves every bit and loses none |
| Globs.CompilePart | src/Glob.cc:335-354 | what is recorded about one part is a function of its collapsed text |
| Globs.CompileGlob | src/Glob.cc:318-370 | the constructor yields the compiled parts, exact masks, initial state and accept bit, and the automaton form exactly for 1 to 62 parts |
| Globs.ComponentMatchesExact | src/Glob.cc:245-252 | whichever shortcut it takes, it decides the declarative component relation |
| Globs.ComponentMatchesFolded | src/Glob.cc:254-277 | the same up to ASCII case |
| Globs.StepLive | src/Glob.cc:379-401 | one closing shift is the full closure: after one more component bit p is set exactly if the parts before p match the components so far (or the `**` at p has swallowed the rest) |
| Globs.InitialRepresents | src/Glob.cc:367 | the initial state holds exactly the positions live before any component |
| Globs.AcceptBit | src/Glob.cc:368 | the accept bit tells exactly whether the whole pattern has matched |
| Globs.DeadForever | src/Glob.cc:428 | an empty state stays empty, so stopping there is sound |
| GlobMatcher.CloseMoves | src/Glob.cc:401 | with at most 62 parts no shift loses a bit |
| GlobMatcher.StepBitmask | src/Glob.cc:372-402 | one step sets exactly the bits the closed moves allow, asking for the directory's policy at most once |
| GlobMatcher.StepRepresents | src/Glob.cc:372-402 | a step keeps the state exact for one more component |
| GlobMatcher.IsPathOrAncestorIgnored | src/Glob.cc:404-441 | by early-exit pass or by fallback: true exactly if the pattern matches some non-empty run of leading components |
| GlobMatcher.IsIgnored | src/Glob.cc:443-513 | by automaton or by table: true exactly if the pattern matches the whole path |
| GlobMatcher.MatchTable | src/Glob.cc:473-512 | the backward table, with its memo of directory policies, decides the glob relation |
| GlobMatcher.FillRow | src/Glob.cc:479-510 | one row of the table is what is matched from that part on, at every component |
| GlobMatcher.NoShortMatch | src/Glob.cc:436-439 | a pattern of 63 or more parts matches no path of at most one component, so cutting before a leading separator does no harm |
| Normalisation.StripGlob | src/Watcher.cc:167-172 | the loop removes all the trailing `/**` and `\**` it is meant to |
| Normalisation.StripMeaning | src/Watcher.cc:164-175 | removing `/**` endings, however often, changes nothing that is ignored |
| Normalisation.BackslashTailChanges | src/Watcher.cc:170-171 | removing a `\**` ending does change it, on POSIX: the shortened pattern ignores a path the given one does not |
| Normalisation.StripExact | src/Watcher.cc:164-175 | so the clean-up preserves the ignore decision if and only if it never takes its backslash branch |
| IgnoreCache.MakeWatcher | src/Watcher.cc:158-183 | the watcher holds the compiled clean patterns, each once, and knows whether all fit the automaton |
| IgnoreCache.CleanGlobsDecide | src/Watcher.cc:727-799 | the watcher's globs decide what the clean patterns mean, whether or not a pattern fits the automaton, unless the path has a leading separator and the policy tells `root` from `root/` |
| IgnoreCache.GivenGlobsDecide | src/Watcher.cc:158-183 | unless a backslash branch was taken, they decide what the patterns mean as they were given |
| IgnoreCache.IgnoreIsHereditary | src/Watcher.cc:727-800 | an ignored path has only ignored descendants |
| IgnoreCache.MakeRootGlobState | src/Watcher.cc:567-584 | the root state describes the empty component run for every glob |
| IgnoreCache.StepDirGlobState | src/Watcher.cc:586-626 | a stepped directory state describes the directory one component further down, including ignored and dead ones and more than eight globs |
| IgnoreCache.IsComponentIgnored | src/Watcher.cc:628-651 | deciding a leaf against its directory's state is deciding whether some glob accepts some leading run |
| IgnoreCache.LeafDecides | src/Watcher.cc:781-791 | deciding the leaf against the state of the directory split from it is the watcher's glob decision |
| IgnoreCache.CleanWalk | src/Watcher.cc:707-717 | unless the component before the leaf is empty, walking the directory reaches that state |
| IgnoreCache.EmptyParentDiffers | src/Watcher.cc:707-717 | every path whose component before the leaf is empty is ignored by the glob of as many stars as it has components, but not when walked |
| IgnoreCache.EmptyParentExact | src/Watcher.cc:707-717 | for the watcher of that glob, walking and splitting agree if and only if the component before the leaf is not empty |
| IgnoreCache.MakeStarsWatcher | src/Watcher.cc:158-183 | up to 62 components there is such a watcher |
| IgnoreCache.ThreadIgnoreCache.Resolve | src/Watcher.cc:662-723 | watcher switch, last-directory shortcut, map hit, clearing at 16384 entries and ancestor restart return the state of the directory as walked or, on a hit, as split, and keep every cached state right |
| IgnoreCache.ThreadIgnoreCache.Walk | src/Watcher.cc:707-717 | the walk from the nearest cached ancestor fills the map with right states only, and skips an empty last component |
| IgnoreCache.ThreadIgnoreCache.DecideLeaf | src/Watcher.cc:781-790 | the cached decision is that of walking or, on a hit, that of splitting the directory |
| IgnoreCache.ThreadIgnoreCache.IsIgnored | src/Watcher.cc:727-800 | for every path the answer is that of splitting or of walking it, and that of walking after a watcher switch; where the component before the leaf is not empty both say whether an ignore path or some glob ignores the path or an ancestor |
| IgnoreCache.Answer | src/Watcher.cc:653-800 | for every sequence of queries by any watchers with distinct non-zero ids on one thread, each answer is the uncached one where walking and splitting the path agree, as they do unless the component before the leaf is empty; a watcher's first answer is always that of walking |
| EventLists.EventList.Create | src/Event.hh:54-65 | the list becomes the log after a create; a create on a delete is an update without id |
| EventLists.EventList.Rename | src/Event.hh:67-111 | the list becomes the log after a rename, including renames of entries created in the batch and onto entries deleted in it |
| EventLists.EventList.Update | src/Event.hh:113-116 | the list becomes the log with the key touched |
| EventLists.EventList.Remove | src/Event.hh:118-123 | the list becomes the log after a remove, without id |
| EventLists.EventList.Error | src/Event.hh:170-175 | the first error of a batch is kept |
| EventLists.EventList.Drain | src/Event.hh:130-168 | the batch lists each visible event once with its id only if paired, carries the first error, and leaves the list empty |
| EventLists.ListsAll | src/Event.hh:130-168 | what a drain delivers has as many events as the batch has keys, and exactly its events, so none is lost, doubled or altered |
| EventLists.EventList.CollectVisible | src/Event.hh:138-153 | the loop keeps the visible events and counts, for every id, its creates, deletes and others |
| EventLog.PairedMeans | src/Event.hh:155-164 | an id is exposed exactly if it stands on one delete and one create and on nothing else |
| EventHistory.FlagsKept | src/Event.hh:54-123 | every change keeps the two flags of every key equal to its presence now against its presence at the last drain |
| EventHistory.BatchIsNetChange | src/Event.hh:130-168 | over every consistent run with drains anywhere, a batch is exactly the net change since the last drain: creates, deletes, and updates for touched survivors |
| EventHistory.ReplayReproduces | src/Event.hh:130-168 | replaying the delivered batches gives exactly the keys present at the last drain |
| EventHistory.IdsKept | src/Event.hh:67-111 | every change keeps each id on the delete at its rename's source or on the create where the moved object is now |
| EventHistory.ExposedIdsAreTrue | src/Event.hh:138-164 | with fresh ids every exposed id joins exactly the source of a rename that happened and the one place its object is at now, through chains of any length |
| EventHistory.IdBegins | src/Event.hh:92-110 | a rename is exposed exactly if its source was not created and its target not deleted in this batch |
| EventHistory.IdStays | src/Event.hh:54-123 | an exposed id stays exposed exactly until its object is removed, its source is taken again, its object goes where something was deleted in this batch, or the list is drained |
| EventHistory.NextMove | src/Event.hh:76-95 | a further rename moves the create only; the id of the first one stays |
| IdentityIndexes.IdentityIndex.Add | src/macos/IdentityIndex.cc:120-127 | the entry is indexed, replacing what was there, and the two maps stay exact inverses without empty buckets |
| IdentityIndexes.IdentityIndex.RemoveExact | src/macos/IdentityIndex.cc:129-139 | one path goes, and the maps stay inverses |
| IdentityIndexes.IdentityIndex.PathCount | src/macos/IdentityIndex.cc:115-118 | the number of paths indexed under the identity |
| IdentityIndexes.IdentityIndex.Remove | src/macos/IdentityIndex.cc:141-155 | a file goes alone, anything else with all indexed below it |
| IdentityIndexes.IdentityIndex.Rename | src/macos/IdentityIndex.cc:157-181 | the index is re-keyed in one step, whatever the targets overlap with |
| IdentityIndexes.WholeSubtree | src/macos/IdentityIndex.cc:141-181 | on a prefix-closed index, removing and renaming treat the whole subtree alike |
| IdentityIndexes.WithoutExact | src/macos/IdentityIndex.cc:141-155 | in every index, removing leaves exactly what is neither the path nor below it, if and only if the path is no known file or has nothing below it |
| IdentityIndexes.FilesAlone | src/macos/IdentityIndex.cc:141-181 | in every index a file is removed and renamed alone |
| IdentityIndexes.ClosedLeaves | src/macos/IdentityIndex.cc:141-146 | a prefix-closed index has nothing below a file, which is why a file is removed alone |
| Subtrees.RekeyAt | src/macos/IdentityIndex.cc:169-180 | what re-keying a subtree leaves at any one path |
| Subtrees.RekeyBack | src/macos/IdentityIndex.cc:157-181 | moving a subtree to a free place and back changes nothing |
| Reconcile.CollectChanged | src/macos/FSEventsBackend.cc:300-319 | the groups hold exactly the paths the other index lacks or holds under another identity, by identity |
| Reconcile.FindCandidates | src/macos/FSEventsBackend.cc:321-347 | the list holds every candidate rename once and nothing else |
| Reconcile.SortRenames | src/macos/FSEventsBackend.cc:349-358 | directories first, then shorter old paths; nothing later depends on how ties fall |
| Reconcile.AcceptRenames | src/macos/FSEventsBackend.cc:360-388 | each candidate is accepted or covered by an accepted directory, none accepted is covered by an earlier one, and each is reported under the next id |
| Reconcile.PairOneDirectory | src/macos/FSEventsBackend.cc:394-413 | every removed entry found again below the new place of an accepted directory is reported as moved along, once |
| Reconcile.PairDescendants | src/macos/FSEventsBackend.cc:390-414 | the same over all accepted directories |
| Reconcile.EmitRemovals | src/macos/FSEventsBackend.cc:416-425 | what is reported removed: changed, not handled, and not a file replaced by a file |
| Reconcile.EmitAdditions | src/macos/FSEventsBackend.cc:426-440 | what is reported created, or updated where a file replaced a file |
| Reconcile.EmitUpdates | src/macos/FSEventsBackend.cc:441-447 | files of unchanged identity with a new time are reported updated |
| Reconcile.AllMoves | src/macos/FSEventsBackend.cc:360-414 | the renames emitted are exactly the inferred ones: candidates and entries below candidate directories |
| Reconcile.ReconcileFullTree | src/macos/FSEventsBackend.cc:282-453 | the whole method replaces the index and plays a plan determined by the two indexes into the event list, or does nothing when cancelled |
| ReconcilePlan.RenameIdInjective | src/macos/FSEventsBackend.cc:383 | different sequence numbers give different ids |
| ReconcilePlan.InferredSides | src/macos/FSEventsBackend.cc:321-414 | an inferred rename goes from a changed path to a path that was absent, and keeps kind and identity |
| ReconcileNet.PlanOutcome | src/macos/FSEventsBackend.cc:360-449 | what all phases together leave at any one key |
| ReconcileNet.ReconciledBatch | src/macos/FSEventsBackend.cc:300-449 | from an empty list the batch creates exactly the new keys, deletes exactly the gone keys and every reoccupied file, and updates exactly the renewed keys less those; where one identity has switched its kind in place, neither is reported and at most an update is |
| ReconcileNet.ReconcileExact | src/macos/FSEventsBackend.cc:431-434 | the batch is the exact net change if and only if no identity has switched its kind in place and no inferred file rename left a place that a new regular file has taken |
| ReconcileNet.ReoccupiedHappens | src/macos/FSEventsBackend.cc:431-434 | two prefix-closed indexes of `/w`, for which every reconciliation reports `/w/a` deleted although it is present |
| ReconcileNet.SwitchHappens | src/macos/FSEventsBackend.cc:300-320 | two prefix-closed indexes of `/w`, where a file has become a directory under its inode, for which every reconciliation reports nothing |
| ReconcileNet.MovesIds | src/macos/FSEventsBackend.cc:379-388 | each id stands only on the delete at the source or the create at the target of its own move |
| ReconcileNet.ReconciledIds | src/macos/FSEventsBackend.cc:360-449 | every id a reconciliation exposes joins exactly the two ends of one inferred rename, whatever else is reported |
| ReconcileMove.OnlyTheMove | src/macos/FSEventsBackend.cc:349-388 | for a pure directory move only the move itself is accepted, whatever else is a candidate |
| ReconcileMove.NothingElse | src/macos/FSEventsBackend.cc:416-447 | and nothing is left to remove, add or update |
| ReconcileMove.PureMoveBatch | src/macos/FSEventsBackend.cc:321-414 | a pure move of a directory to an absent path outside itself reconciles to exactly one id-matched delete and create per entry at or below it, all ids distinct, and no other event, hard-linked files included |
| ReconcileMove.FileMoveBatch | src/macos/FSEventsBackend.cc:321-414 | the move of one file is a delete and a create under one id if it has a single link, and without an id otherwise |
| Backends.WatchOutcome | src/Backend.cc:150-207 | with no step in between its two sections, a successful `watch` leaves the watcher subscribed and valid; a failed one leaves the subscriptions alone and marks a subscribed watcher for another try |
| Backends.StartWatch | src/Backend.cc:156-183 | when a subscription begins, and that it only adds the watcher to the pending set |
| Backends.StartUnwatch | src/Backend.cc:215-231 | the watcher is dropped exactly if it was subscribed, is not kept and unsubscribing succeeds; otherwise everything is as before |
| Backends.Backend.BeginWatch | src/Backend.cc:150-185 | the first locked section of `watch` does that to the fields |
| Backends.Backend.EndWatch | src/Backend.cc:185-206 | the last locked section of `watch`, on success and failure |
| Backends.Backend.BeginUnwatch | src/Backend.cc:209-232 | the locked section of `unwatch`, with the restoring on failure |
| Backends.Backend.Invalidate | src/Backend.cc:241-245 | only a subscribed watcher becomes invalid |
| Backends.Backend.ReleaseShared | src/Backend.cc:256-260 | one reservation goes, and `unref` follows exactly the last |
| Backends.SharedBackends.Find | src/Backend.cc:46-53 | a registered backend is reserved and returned |
| Backends.SharedBackends.Emplace | src/Backend.cc:60-73 | whoever registered the name first is selected and reserved |
| Backends.SharedBackends.RemoveSharedLocked | src/Backend.cc:77-89 | the loop removes the backend's only registration |
| Backends.SharedBackends.Unref | src/Backend.cc:247-254 | an unused backend is stopped and unregistered, any other left alone |
| BackendInvariant.Kept | src/Backend.cc:45-260 | every step of every caller keeps the invariant of the protocol |
| BackendSafety.StopIsSafe | src/Backend.cc:247-254 | in every interleaving `stop` is never called on a backend that is reserved, subscribed to or being subscribed on |
| BackendSafety.StoppedIsForgotten | src/Backend.cc:247-254 | a stopped backend is never registered, reserved or used again |
| BackendSafety.NoOrphan | src/Backend.cc:241-260 | a registered backend that nobody uses always has a caller on its way to `unref` |
| BackendSafety.QuietRegistry | src/Backend.cc:241-260 | once all callers are through, every registered backend has a subscribed watcher |
| BackendSafety.OneSubscriber | src/Backend.cc:150-206 | at most one caller subscribes a watcher on a backend at a time, pending means some caller is, and invalid subscriptions are subscriptions |
| BackendSafety.StaysSubscribed | src/Backend.cc:150-260 | in every interleaving a subscribed watcher stays subscribed, and its backend is not stopped, until somebody unsubscribes it |
| BackendSafety.WatchBegins | src/Backend.cc:150-185 | an uncancelled `watch` subscribes exactly if the watcher was not subscribed, was invalid or asked for it |
| BackendSafety.WatchEnds | src/Backend.cc:185-206 | whom the last section leaves subscribed and invalid, and when `unref` follows |
| BackendSafety.AsksAgain | src/Backend.cc:241-245 | what asks for a renewal |
| BackendSafety.StaysDue | src/Backend.cc:150-207 | in every interleaving a request for a renewal stays due until somebody completes it, the watcher is unsubscribed, or a `watch` on another backend answers for it |
| BackendSafety.GetsRegistered | src/Backend.cc:45-73 | whoever gets a backend gets and reserves the registered one |
| BackendSafety.FallsBack | src/Backend.cc:55-60 | an unknown name means the default backend, one that does not start is not kept, and any other is new and unused |
| BackendSafety.ReleaseEnds | src/Backend.cc:256-260 | the caller's reservation goes and exactly the last one to go is followed by `unref` |
| BackendSafety.UnrefEnds | src/Backend.cc:247-254 | `unref` stops and unregisters its backend if and only if nobody uses it, and touches nothing else |
| BackendSafety.StopsShown | src/Backend.cc:45-73 | what the safety of `stop` speaks of is exactly what a step stops |
| BackendSafety.NeverStuck | src/Backend.cc:45-260 | in every reachable state a caller in the middle of a call can go on, whatever the others have done |
| BackendSafety.ComesThrough | src/Backend.cc:45-260 | each of its own steps brings it nearer to the end of its call, at most six in all, and nobody else moves it |
| BackendSafety.ErrorForgets | src/Backend.cc:267-280 | an error takes the backend out of the registry, it alone, and leaves its subscriptions and callers as they are; it is forgotten if and only if no caller has it to itself |
| BackendSafety.NeverHandedOut | src/Backend.cc:45-280 | over every run a backend once forgotten is never registered or reserved again |
| BackendSafety.NoneLostAlways | src/Backend.cc:60-73 | as long as no backend reports an error, every backend made is registered, stopped or still in a caller's hands |
| Debouncing.Signal.TryWait | src/Signal.hh:11-17 | one look of a waiting thread at the flag |
| Debouncing.Debounce.DoTrigger | src/Debounce.cc:39-42 | a trigger sets the flag under the lock |
| Debouncing.Debounce.DoCheck | src/Debounce.cc:55-72 | the clock decides between notifying at once and waiting |
| Debouncing.Debounce.DoReset | src/Debounce.cc:74-75 | the flag is cleared before the short wait |
| Debouncing.Debounce.RunCallbacks | src/Debounce.cc:86-89 | each registered callback runs, once each |
| Debouncing.Debounce.DoNotify | src/Debounce.cc:82-92 | the time is noted, the callbacks run and the flag is cleared, all under the lock |
| Debouncing.ServedInTime | src/Debounce.cc:39-92 | no trigger is lost: after each the callbacks begin to run within MAX_WAIT_TIME + MIN_WAIT_TIME, however other triggers arrive, and time cannot pass that bound without it |
| Debouncing.ServedAtOnce | src/Debounce.cc:60-69 | after a trigger more than MAX_WAIT_TIME after the last run, in every run of the protocol the callbacks begin at the time of the trigger and time does not advance before |
| Debouncing.RunsApart | src/Debounce.cc:66-80 | callback runs begin at least MIN_WAIT_TIME apart |
| Debouncing.Batched | src/Debounce.cc:55-80 | triggers are batched: callbacks run only if, when the thread decided so, the newest trigger was at least MIN_WAIT_TIME old or the last run more than MAX_WAIT_TIME ago; when they run that still holds if and only if no trigger came after the decision or the last run is that long ago |
| Debouncing.LateTrigger | src/Debounce.cc:74-85 | a trigger between the end of the wait and the lock is reported at once, with no quiet time after it |
| Debouncing.DecidesRight | src/Debounce.cc:55-80 | at the clock and at the end of a wait the thread decides to run only where it may, and does so where the clock or an undisturbed wait allows it |
| Debouncing.ThreadProgress | src/Debounce.cc:44-80 | the thread never spins and never gets stuck: its steps bring it nearer to blocking, and once it blocks time can pass |
| DirTrees.RoundTrip | src/DirTree.cc:165-172 | a tree written in any order and read back is the same, for all non-empty NUL-free paths, digits, colons, spaces and newlines included |
| DirTrees.ScanWritten | src/DirTree.cc:202-217 | one written entry is read back and nothing behind it is touched |
| DirTrees.DirTree.Write | src/DirTree.cc:165-172 | the text written is that of the tree, each entry once |
| DirTrees.DirTree.Read | src/DirTree.cc:50-60 | the reading constructor yields the tree any text stands for, malformed text included |
| DirTrees.File.GetEntry | src/DirTree.cc:202-213 | one entry as any text yields it, with every partial failure |
| DirTrees.NumberMeans | src/DirTree.cc:202-213 | a number is read as the value of the longest run of digits after the white space, and nothing is read where no digit stands |
| DirTrees.EntryMeans | src/DirTree.cc:202-213 | size, colon, path, time and kind as any text yields them: without a size and a colon the entry is empty, and a path cut short or a missing number leaves the time zero and the entry a file |
| DirTrees.DirTree.Add | src/DirTree.cc:72-77 | an entry is added but never overwritten |
| DirTrees.DirTree.Update | src/DirTree.cc:86-93 | only the time of a known path changes |
| DirTrees.DirTree.Extract | src/DirTree.cc:95-110 | exactly the entries at or below the path leave, each listed once |
| DirTrees.DirTree.Restore | src/DirTree.cc:112-122 | the entries come back at their new places |
| DirTrees.DirTree.Rename | src/DirTree.cc:124-143 | the tree is re-keyed in one step |
| DirTrees.ExtractRestore | src/DirTree.cc:95-143 | extracting and restoring elsewhere is renaming |
| DirTrees.DirTree.Remove | src/DirTree.cc:145-163 | a directory goes with what is below it, a file alone |
| DirTrees.WithoutExact | src/DirTree.cc:145-163 | removing a path leaves exactly what is neither it nor below it, if and only if it is a known directory or nothing is below it |
| DirTrees.WithoutRest | src/DirTree.cc:145-163 | in every tree the path itself goes, nothing outside it does and a file goes alone |
| InotifyWatches.AlwaysAccounted | src/linux/InotifyBackend.cc:145-187 | over every sequence of additions, removals and kernel drops, the kernel's watches are exactly the descriptors some subscription uses, less the dropped ones |
| InotifyWatches.AddAccounted | src/linux/InotifyBackend.cc:145-187 | watching a path keeps that, and the answered descriptor ends up live |
| InotifyWatches.RemoveAccounted | src/linux/InotifyBackend.cc:413-458 | so does every removal |
| InotifyWatches.OthersKeepWatches | src/linux/InotifyBackend.cc:429-433 | removing some subscriptions leaves all others and their watches in place |
| InotifyWatches.AddMeans | src/linux/InotifyBackend.cc:145-187 | watching a path keeps the entries of all others, leaves of this path only those under the answered descriptor, and adds one only if there is none |
| InotifyWatches.RemoveMeans | src/linux/InotifyBackend.cc:429-433 | which entries a removal leaves |
| InotifyWatches.EraseOne | src/linux/InotifyBackend.cc:727-738 | erasing one entry, and its watch if it was the last, is removing that entry |
| Inotify.InotifyBackend.WatchDir | src/linux/InotifyBackend.cc:145-187 | stale descriptors of the same path go, a tracked one is kept, a new one is recorded, and the accounting holds |
| Inotify.InotifyBackend.RemoveMoved | src/linux/InotifyBackend.cc:413-434 | exactly the subscriptions of the pending move go |
| Inotify.InotifyBackend.RemoveSubscriptions | src/linux/InotifyBackend.cc:436-458 | exactly the watcher's subscriptions at or below the path go |
| Inotify.InotifyBackend.Unsubscribe | src/linux/InotifyBackend.cc:718-742 | all of the watcher's subscriptions and pending moves go; if the kernel refuses, the accounting holds for what is left and other watchers are untouched |
| Inotify.InotifyBackend.Dropped | src/linux/InotifyBackend.cc:730-733 | a watch the kernel drops by itself, whose removal later answers EINVAL, keeps the accounting |
| Inotify.InotifyBackend.MovedFrom | src/linux/InotifyBackend.cc:672-712 | a departure takes the entries out of the tree and waits with them and the subscriptions, or without a cookie reports them gone, unless the directory is only an ancestor, itself on the move or ignored |
| Inotify.InotifyBackend.RootGone | src/linux/InotifyBackend.cc:491-510 | every entry in the tree or waiting for a move is reported gone, and the watcher keeps no subscription and no pending move |
| Inotify.InotifyBackend.Depart | src/linux/InotifyBackend.cc:679-703 | what a pending move holds |
| Inotify.InotifyBackend.MovedTo | src/linux/InotifyBackend.cc:534-650 | the tree, events, subscription paths and pending moves after a paired arrival, for every answer of `lstat`, when the `substr` of a carried path throws and what that leaves, and when a rescan is due |
| Inotify.InotifyBackend.MoveSubscriptions | src/linux/InotifyBackend.cc:404-411 | every carried subscription is re-prefixed in place, unless some path is shorter than what is dropped from it |
| Inotify.InotifyBackend.DeliverMove | src/linux/InotifyBackend.cc:534-703 | a departure and its arrival together are one move of the chain model, for tree, events and every subscription, whatever other moves are pending |
| InotifyMoves.NoRename | src/linux/InotifyBackend.cc:548-558 | a move onto something known or ignored is, whatever the log held, a removal at the old path without id; no key gets an id, and only the keys of its two paths change |
| InotifyMoves.NoRenames | src/linux/InotifyBackend.cc:546-567 | landing on a known target, no entry of the move is reported as a rename |
| InotifyMoves.CarriedMeans | src/linux/InotifyBackend.cc:404-411 | a path carried along with a move: the source becomes the target, what is below it keeps its place below, anything else stays |
| InotifyNet.LandingReflects | src/linux/InotifyBackend.cc:534-650 | whatever a known file or directory is moved onto, whatever is ignored and whatever `lstat` then sees: if the log showed what had become of the tree since the last drain, it still does |
| InotifyNet.MovesNet | src/linux/InotifyBackend.cc:534-703 | over every sequence of moves, over each other or to free places, one drain creates and deletes exactly what has come and gone |
| InotifyNet.MoveBatch | src/linux/InotifyBackend.cc:546-567 | the batch of one move: each entry deleted where it was, updated where it lands on something known and created elsewhere, ignored places aside, and nothing else |
| InotifyNet.FileOverwrites | src/linux/InotifyBackend.cc:546-558 | one file moved onto another is the delete of the one and the update of the other, without an id |
| InotifyNet.GoneReflects | src/linux/InotifyBackend.cc:704-710 | entries that leave the tree and are reported removed are shown as gone |
| InotifyNet.UnknownReflects | src/linux/InotifyBackend.cc:606-620 | a move of something unknown reports its old place deleted and its new one updated or created, and the target is known under the kind and time `lstat` saw |
| InotifyNet.StampShows | src/linux/InotifyBackend.cc:621-630 | `lstat` only renews the time of a known target and adds an unknown one |
| InotifyMoves.OverlapExact | src/linux/InotifyBackend.cc:404-411 | for one path carried by two moves, the outer one landing first: it comes out right if and only if the outer directory went to a path of the same length, and the `substr` throws exactly if it has become shorter than what is dropped |
| InotifyMoves.OverlapInnerExact | src/linux/InotifyBackend.cc:404-411 | the same path when the inner landing comes first: the outer one leaves it alone if and only if it begins with where the outer directory went |
| InotifyRuns.DeliverOverlapping | src/linux/InotifyBackend.cc:404-703 | on a backend, two nested departures, the inner one first, and their landings, the outer one first: both moves carry the inner subscriptions, the inner landing throws exactly if some carried path has become too short, and otherwise each path is right if and only if the outer directory went to a path of the same length |
| InotifyRuns.DeliverInnerFirst | src/linux/InotifyBackend.cc:404-703 | the same departures, the inner move landing first: the outer landing throws exactly if some inner subscription now has a path shorter than the outer source, and otherwise each of them stays right if and only if its path begins with the outer target |
| InotifyRuns.DeliverOuterDeparture | src/linux/InotifyBackend.cc:512-703 | the outer departure first: the inner one is not noted but marks the outer move, every subscription is carried once, and the landing is due for a rescan |
| InotifyRuns.DeliverSameLength | src/linux/InotifyBackend.cc:404-703 | however many other moves of a watcher land first, each at a path of the length of its source and none of a longer source: nothing throws and the subscriptions of the last move come out right |
| InotifyRuns.OverlapHappens | src/linux/InotifyBackend.cc:404-703 | `/w/long/b` on its way to `/w/d/c` while `/w/long` is renamed and lands first: a shorter name makes the second landing throw, a longer one misplaces the subscription |
| InotifyRuns.OverlapInnerHappens | src/linux/InotifyBackend.cc:404-703 | the same landing in the other order: whatever the new name of `/w/long`, of the same length or not, a short name in `/w/d` makes the second landing throw and any other misplaces the subscription |
| InotifyTracking.FirstReported | src/linux/InotifyBackend.cc:547-567 | a first move, in whatever order its entries come, pairs each with its new place under its own id |
| InotifyTracking.NextReported | src/linux/InotifyBackend.cc:547-567 | a further move keeps the ids of the first and moves the creates |
| InotifyChains.TreeMoves | src/linux/InotifyBackend.cc:570-598 | the tree of one move is the re-keyed tree, up to the time of the directory itself |
| InotifyChains.ChainLands | src/linux/InotifyBackend.cc:534-598 | after every chain of paired directory moves through open places, the tree and subscriptions are re-prefixed to the last target and one drain pairs each original entry with its final place under distinct ids |
| InotifyRuns.DeliverChain | src/linux/InotifyBackend.cc:534-703 | the same on a backend: a loop of departures and arrivals, then one drain, leave the tree as if moved once, every subscription of the watcher carried to the last place, and a batch that is exactly one pair for each original entry |

## Left out

- Windows and macOS branches of the ignore engine: `\` as a separator, system case folding, the alias lookup of `Watcher::isIgnored`. `foldedChars`, which POSIX never reads, and the hash of a glob are not modelled.
- IgnoreCache.Answer: where walking and splitting a path disagree, only the first answer to a watcher is characterised. The cache walks a directory text without an empty last component, so they disagree on paths whose component before the leaf is empty; no caller builds one, every path being a resolved directory (wrapper.js:46) followed by separators and single names (src/linux/InotifyBackend.cc:218).
- Staleness of the cache when a directory changes its case policy.
- EventLists.EventList.Drain: the order of the batch is left open, and the mutex is not modelled, each method being one locked section.
- Conversion of events, options and promises to JavaScript.
- Reconcile.ReconcileFullTree: takes the rescan as an input index; the directory tree that is replaced beside the index, and the rest of the event processing around it, are not modelled. The theorems about it assume that all ancestors of an indexed path are indexed.
- Backends.Backend.EndWatch: the watcher's own state, which a failure resets, is not modelled, and waking the waiters is the guard of their steps. What `subscribe` and `finishSubscribe` do is reduced to whether they fail. `finishUnsubscribe` is taken not to fail; were it to, `unref` would be skipped.
- Backends.WatchOutcome: an `invalidate` between the two sections leaves the watcher subscribed and invalid.
- BackendSafety.NoOrphan: says that some caller is committed to `unref`, not that schedulers are fair. That `stop` runs at most once is not claimed: a caller may stop a backend that another has just stopped.
- Start-up and destruction of backend threads, and notification of errors to watchers.
- Debouncing.ServedInTime: time passes only while the thread is blocked or callbacks run; its own steps take none. The destructor and its flag are not modelled.
- Debouncing.Signal.TryWait: one pass of the wait loop. That `wait` returns on a set flag only, and what `waitFor` answers, are the steps `Wake` and `EndWait` of the protocol.
- DirTrees.DirTree.Read: numbers are unbounded, and the signs and overflows that `fscanf` accepts in foreign text are not modelled.
- DirTrees.File.GetEntry: the same.
- DirTrees.RoundTrip: paths with NUL bytes are cut when written, and an empty path is dropped when read.
- `DirTree::getChanges` and the shared tree cache.
- Inotify.InotifyBackend.MovedTo: stops where a moved directory is watched or scanned again; `addCreatedTree`, `reconcileMovedTree`, unpaired arrivals, expiry of unpaired departures and queue overflow are not modelled.
- Inotify.InotifyBackend.DeliverMove: for a target that is no special file and with nothing ignored; the two methods it calls cover those cases.
- InotifyRuns.DeliverOverlapping: with nothing ignored and no special file at either target, and both targets outside the outer directory, arrivals inside it being suppressed; what a later rescan of the moved directory adds is not modelled.
- InotifyRuns.DeliverInnerFirst: the same.
- InotifyRuns.DeliverOuterDeparture: the rescan itself, and the arrival of the inner directory, which then is an unpaired one, are not modelled.
- InotifyRuns.DeliverChain: as `ChainLands`.
- Inotify.InotifyBackend.RootGone: `invalidate` on the backend, which it calls, is modelled with the backend.
- InotifyChains.ChainLands: for directories with nothing ignored, each move arriving before the next departs, each target apart from the first place and from the one before, and `lstat` failing or showing a directory.
- The Windows backend, and the FSEvents backend outside full reconciliation.
