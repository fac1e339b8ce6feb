# A verified model of WebIndexP2P's stateful cores

WebIndexP2P keeps one signed post for each account, and accounts exist because other accounts invited
them. Four parts of the node hold state whose correctness spans many calls, and this project models each
of them in Dafny, in the form the Go code has, and proves what they are for.

* **Merklehead** (`MerkleTree`, `MerkleRemove`, `MerkleRuns`, `Merkleheads`). A content-addressed radix tree
  from 40-nibble addresses to timestamps. The tree functions say what `addItemRecursive` and
  `removeItemRecursive` compute; the class `Merklehead` is the code over the document store, proved to
  compute exactly that. Adding is map update in every case. Removing is map deletion if and only if no
  collapse loses somebody else's address, and `RemovalLosesAnAddress` shows the smallest tree in which it
  does. Trees in canonical form depend on the map only, so that two peers can compare one hash.
* **Delta log and sync** (`DeltaLogs`, `Feeds`, `Pulls`, `Sessions`). The log is two key ranges in one
  byte-ordered bucket, proved to be the exact compaction of the history of events. A puller pages through the
  log while the remote node keeps changing it: whatever happens between two pages, no row is lost and no
  number is delivered twice. `Pulls` says what a pull does to log, posts and merklehead tree of the puller;
  `Sessions` is the code, proved to do that. Two peers that take turns end with the newest post of every
  account, and which sides are marked synced is decided by the trees that the two pulls build.
* **Reference counts** (`DocStores`, `IpldWalk`, `UpdateRoots`). Collection keeps the counts exact and leaves
  exactly the reachable documents. Replacing a root keeps them exact if and only if the new root is not stored
  yet or has no links, links no hash twice, and drops only links that belonged to the released old root alone,
  because a dropped link loses one reference in `UpdateRoot` and another one when the old root is collected.
* **Invites** (`Accounts`, `InviteParse`, `UpdatedInvites`, `Cascade` and the four `Cascade…` theorem modules,
  `Commits`, `Levels`, `AccountCode`). `Cascade` states the mutual recursion of `account/recursive.go` as
  functions on the stored state, with a recursion bound so that they are total on cyclic graphs too;
  `AccountCode` is the code on mutable account objects, proved to do the same. The theorems are about whole
  cascades: disabling is exact on any acyclic graph; dropping and re-inviting is a round trip in a forest;
  over a forest, account bucket, merklehead and delta log stay in step through every branch, and the final
  records say of every invite whether its account joined, was looked at again, lost its inviter or was left
  alone. `Levels` is about the distance from the root that accounts note.

Where the code does something other than its comments promise, the model follows the code and the
exact condition is stated:

* The comment at `merklehead/recurse.go:176-186` describes a collapse that keeps all addresses; the code merges
  tails without their nibble (`MerkleRemove.RemoveIsExact`), in some orders of visiting the links and not in
  others (`MerkleRemove.RemoveIsExactInEveryOrder`).
* `clientsession/rpc_sync_finished.go:33-52` is meant to mark both sides synced. When the heads agree before
  the exchange, the initiator returns without a message and the responder is never told
  (`Sessions.Synchronise`). And heads depend on the history where a split was not clean: a node that holds
  sixteen posts in one leaf and gets one of them again splits the leaf, a node that takes over the latest
  sixteen does not, and neither side is ever marked (`Pulls.SixteenAndOneAgain`, `Pulls.OnePostAgain`).
* Replacing a root is meant to free what is no longer linked (`sigbundle/sigbundle.go:230-245`). A link that is
  dropped by one of two accounts that share it loses both its references, and the document is deleted under the
  other account (`UpdateRoots.SharedLinkIsLost`, and exactly when in `UpdateRoots.ReplaceLosesIff`); the links of
  a root that two accounts have in common are counted twice (`UpdateRoots.SameRootTwice`).
* A post that signs the same content again with a newer time moves the merklehead but not the account's
  timestamp (`sigbundle/sigbundle.go:173-177, 257-258, 299`), so that the indexes agree afterwards exactly if
  the content changed (`Commits.CommitInStepIff`, and `Commits.SameContentAgain` for a post that does not).
* `CheckAllInvited` is meant to check the levels of invited accounts (`account/recursive.go:115-117`), but an entry
  that is there keeps the level that was noted when it was made: after an update it is right exactly if the
  inviter's level is the same as before (`Levels.NotedStaysRightIff`, `Levels.GapChangeIsMissed`).

Hashes are a parameter assumed injective; bbolt buckets are maps, ordered by key bytes for the log; the order
in which Go visits a map is a parameter or an arbitrary choice; fatal exits and panics are results. The
graph theorems take heights in the invite graph (`rank`, `depth`) as witnesses of acyclicity.
`CascadeReinvite.ThreeGenerations` exhibits a graph that meets their hypotheses.

## Model

| member | source | states |
|---|---|---|
| DocStores.DocStore.Get | db/pastedata.go:93-117 | a stored document with its count, or an empty result for a missing one |
| DocStores.DocStore.Add | db/pastedata.go:15-41 | the bucket afterwards: a new document with one reference, or one reference more (32-bit) with missing data filled in |
| DocStores.DocStore.RemoveRef | db/pastedata.go:62-91 | the bucket afterwards: one reference less (32-bit), the last one deletes, a missing document changes nothing |
| DocStores.AddedHolds | db/pastedata.go:15-41 | storing a document under its own hash makes it readable and neither loses nor replaces any other document |
| MerkleTree.AddRefinesUpdate | merklehead/recurse.go:17-145 | looking up any tail after adding gives the old map with that one address set, through the in-place, split, existing-child and new-child cases at any depth |
| MerkleTree.AddKeepsShape | merklehead/recurse.go:48-93 | adding keeps every document wholly leaf or wholly branch, tails at depth d of length 40-d, and at most 16+d entries in a leaf at depth d, also when a split sends all entries one level down |
| MerkleTree.CanonicalIsUnique | merklehead/recurse.go:48-131 | two canonical trees (leaves of 1 to 16 entries, branches over at least 17 addresses) with the same address-to-timestamp map are the same tree |
| MerkleTree.AddKeepsCanonical | merklehead/recurse.go:48-76 | adding to a canonical tree gives a canonical tree if and only if the leaf has room, or the address is new and the seventeen entries do not all continue with the same nibble |
| MerkleTree.SetAgainInFullLeaf | merklehead/recurse.go:48-76 | setting a present address once more in a full leaf leaves what readers find as in a leaf with the new timestamp, but as another, not canonical tree |
| MerkleTree.SplitFind | merklehead/recurse.go:53-92 | the split document reads back every entry of the full one |
| MerkleRemove.RemoveIsExact | merklehead/recurse.go:152-300 | removing a present address always succeeds, and it is map deletion if and only if no collapse fires or nothing else was there to lose |
| MerkleRemove.RemoveIsExactInEveryOrder | merklehead/recurse.go:241-279 | removing a present address is map deletion in every order in which the links may be visited if and only if the leaf keeps more than sixteen entries, or no sibling has links and more than sixteen distinct tails stay, or nothing else was there to lose |
| MerkleRemove.NoCollapseRemoves | merklehead/recurse.go:198-286 | without a collapse the new root denotes the old map minus the address, and emptied leaves are unlinked |
| MerkleRemove.CollapsedHasShortTails | merklehead/recurse.go:236-238 | after a collapse no reader finds any address any more below that branch: the merged tails lack their nibble |
| MerkleRemove.RemovalLosesAnAddress | merklehead/recurse.go:241-279 | for any two addresses under different first nibbles, removing one makes the other unreadable |
| MerkleRemove.RemoveOfMissing | merklehead/recurse.go:198-216 | an address that is not there is an error where the walk ends in a leaf and a panic where a branch lacks the link, and the tree stays as it is |
| MerkleRemove.CollapseKeepsLast | merklehead/recurse.go:247-271 | of a tail that several siblings hold, a collapse keeps the timestamp of the one visited last |
| MerkleRemove.OrderOfVisitsDoesNotMatter | merklehead/recurse.go:243-272 | where the siblings are leaves, whether the branch collapses, and the tree if it does not, are the same for every order in which the links are visited |
| MerkleRemove.RemoveKeepsShape | merklehead/recurse.go:152-300 | a safe removal leaves a well-formed tree |
| MerkleRemove.RemoveKeepsBound | merklehead/recurse.go:274-279 | every removal, safe or not, keeps the bound on the size of leaves |
| MerkleRemove.RemoveKeepsCanonical | merklehead/recurse.go:198-286 | a safe removal from a canonical tree of an address that is not the last one leaves a canonical tree |
| MerkleRuns.RunIsLatest | merklehead/merklehead.go:50-132 | after any run of Add and Remove whose removals are safe, a reader finds exactly the latest timestamps of the addresses not removed since, and the shape holds |
| MerkleRuns.CleanRunIsCanonical | merklehead/merklehead.go:50-132 | runs without an unclean split or a last removal end with a canonical tree |
| MerkleRuns.HistoryDoesNotMatter | merklehead/merklehead.go:50-132 | two such runs that build the same map end with the same tree, hence with the same merklehead bytes |
| Merkleheads.LookupIsFind | test/lib/lib.go:134-182 | a peer that follows links through the store from the root finds what the tree holds |
| Merkleheads.EarlierRootsStillRead | merklehead/merklehead.go:134-146 | as long as the store only grows, as it does in Add and Remove, every earlier root still reads back its old map |
| Merkleheads.SameHeadSameTree | clientsession/startsync.go:28-43 | with an injective hash, equal root hashes of well-formed trees mean equal trees |
| Merkleheads.FullBranchHasEveryNibble | merklehead/recurse.go:108-110 | a branch document with sixteen links has the wanted one: the "should have found a match" failure is unreachable |
| Merkleheads.Merklehead.FetchDoc | merklehead/merklehead.go:148-161 | the document of a stored tree; the missing-document failure is unreachable |
| Merkleheads.Merklehead.SaveDoc | merklehead/merklehead.go:134-146 | the document is stored under its hash and nothing else is lost |
| Merkleheads.Merklehead.HoldsTimestamps | merklehead/recurse.go:41-48 | looking at any one value tells a leaf from a branch, the empty document counting as a branch |
| Merkleheads.Merklehead.GroupByNibble | merklehead/recurse.go:53-76 | the child documents of a split hold exactly the entries with that first nibble, the new one included, in whatever order they are visited |
| Merkleheads.Merklehead.PutEntry | merklehead/recurse.go:55-64 | an entry goes, without its first nibble, into the group of that nibble, which is made if need be |
| Merkleheads.Merklehead.SaveGroups | merklehead/recurse.go:78-92 | the new root document links to every child document, and all of them are stored |
| Merkleheads.Merklehead.AddItemRecursive | merklehead/recurse.go:17-145 | the returned hash stands for the tree with the address added, the whole tree is stored, and the store has only grown |
| Merkleheads.Merklehead.Add | merklehead/merklehead.go:50-92 | the head stands for the old tree with the address added, starting with a single leaf when there was none |
| Merkleheads.Merklehead.RemoveFromLeaf | merklehead/recurse.go:199-216 | the entry is found if and only if it is there, and the rest is reported |
| Merkleheads.Merklehead.MergeSibling | merklehead/recurse.go:247-271 | one sibling's entries are merged up to the point where a link or a seventeenth entry stops the walk |
| Merkleheads.Merklehead.CollectSiblings | merklehead/recurse.go:241-272 | the merged entries are those of the tree-level function, as far as a document could hold them |
| Merkleheads.Merklehead.RemoveItemRecursive | merklehead/recurse.go:152-300 | status, new root, reported entries and level are those of the tree-level function, and the new tree is stored |
| Merkleheads.Merklehead.Remove | merklehead/merklehead.go:94-132 | success if and only if the address is there; an error, a panic (which one, exactly) or a missing head changes nothing; otherwise the head stands for the tree after removal |
| DeltaLogs.BtoiInvertsItob | util/util.go:22-37 | decoding eight big-endian bytes gives back the number |
| DeltaLogs.ItobKeepsOrder | util/util.go:22-27 | the byte order of encoded numbers is their numeric order |
| DeltaLogs.CompactionIsExact | deltalog/log.go:34-81 | row range and account index are mutually inverse, each account ever mentioned has exactly one row, and that row is its latest event with its flag |
| DeltaLogs.LastRow | deltalog/log.go:38-44 | the largest row number is the length of the history |
| DeltaLogs.UpdateCompacts | deltalog/log.go:34-81 | one Update turns the compaction of a history into that of the history with one more event |
| DeltaLogs.RowsIncrease | deltalog/log.go:136-159 | listed rows are numbered strictly increasingly from the start |
| DeltaLogs.RowsComplete | deltalog/log.go:136-159 | every current row at or above the start that passes the filter is listed |
| DeltaLogs.ForwardReaches | deltalog/log.go:136-142 | a forward cursor step skips no row and never strays into the index range |
| DeltaLogs.DeltaLog.Update | deltalog/log.go:34-81 | the bucket is the compaction of the history with the new event, whose number is the new length |
| DeltaLogs.DeltaLog.GetBatch | deltalog/log.go:122-162 | the first ten matching rows at or above the start, in increasing order |
| DeltaLogs.DeltaLog.GetRecent | deltalog/log.go:164-186 | the accounts of all matching rows, latest first, whatever count was asked for |
| Feeds.EventKeepsInStep | sigbundle/sigbundle.go:275-299 | log and posts agree after an event as long as they are changed together |
| Feeds.Feed.Accept | sigbundle/sigbundle.go:148-171 | a post is accepted if and only if its account is enabled and it is newer than the last post and than the invite; acceptance changes log and post together |
| Feeds.EffectKeepsInStep | account/recursive.go:67-95 | a post, the same content signed again, disabling, bringing back the old content under its old time, and a new or newer invite each concern one account, keep log and posts in step, and are logged if the post changes |
| Feeds.Feed.Advance | account/recursive.go:67-95 | posts, members and log after any of these steps, step by step: a disabled account has neither post nor invite, a removal is logged if and only if it had a post, a newer invite drops an older post; other accounts are untouched |
| Feeds.Feed.BundleGetBySequence | clientsession/rpc_bundle_getbysequence.go:15-52 | a page lists the first ten rows with current timestamps, and the "sequence account not found" failure is unreachable |
| Pulls.WithKeepsSound | sigbundle/sigbundle.go:275-303 | one post taken over keeps log, posts and merklehead agreeing, and the tree well-formed |
| Pulls.WantedMore | clientsession/swap_sequence.go:33-62 | two pages in sequence take over what one page of all their rows would: no row makes another one's post old or new |
| Pulls.PulledIsNewest | clientsession/swap_sequence.go:15-62 | pulling the fresher posts row by row leaves the pointwise newest posts |
| Pulls.StillCaughtUp | clientsession/startsync.go:37-43 | a node's own pull does not undo what its peer had caught up with |
| Pulls.EqualPostsEqualTrees | clientsession/startsync.go:40-43 | canonical trees that show the same posts are the same |
| Pulls.CleanlyKeepsCanonical | clientsession/swap_sequence.go:33-62 | a pull keeps the tree canonical if every post finds room in its leaf or splits it cleanly |
| Pulls.CleanPullsAgree | clientsession/rpc_sync_finished.go:33-52 | if both trees are canonical and no split of the two pulls is unclean, the peers agree on the merklehead afterwards |
| Pulls.NewNodeAgreesIff | clientsession/rpc_sync_finished.go:33-52 | a new node and one with at most sixteen posts agree afterwards, whoever initiates, if and only if the latter holds its posts in one leaf |
| Pulls.SixteenAndOneAgain | clientsession/rpc_sync_finished.go:33-52 | a node where sixteen accounts posted once each and one of them posted again never agrees with a new node |
| Pulls.OnePostAgain | clientsession/rpc_sync_finished.go:33-52 | seventeen actual posts with which this happens |
| Sessions.Node.Publish | sigbundle/sigbundle.go:148-303 | a new post moves log, account and merklehead together, a refused one changes nothing |
| Sessions.SaveAccount | clientsession/swap_sequence.go:101-168 | for an account that is no member here the active inviters are followed up to the first member, whose remote post is taken over if and only if it is acceptable and the invite it gave is newer than the post known here; an account without inviter details leaves everything alone; success if and only if the account is a member and its post is no news or acceptable |
| Sessions.FirstMemberIs | clientsession/swap_sequence.go:124-150 | the member that is asked about is the end of the chain of active inviters that starts with the account, with the time of the invite before it |
| Sessions.DoSequenceSwapBatch | clientsession/swap_sequence.go:33-62 | a page is processed in order up to the first post that cannot be saved, the returned number is that of the last row looked at, and a page that cannot be fetched changes nothing; rows dealt with, the failing row and the posts taken over are exactly those that the posts, members and inviters before the call decide |
| Sessions.FailuresAreUnwelcome | clientsession/swap_sequence.go:33-62 | whatever failed during a pull, the remote node has shown a post at that time that is not acceptable here |
| Sessions.EventKeepsSettled | clientsession/swap_sequence.go:21-29 | a new event at the remote node only takes rows away below the puller's position |
| Sessions.PageStep | clientsession/swap_sequence.go:21-29 | one page settles all rows up to the last one looked at, and all rows when the loop exits |
| Sessions.StartSequenceSwap | clientsession/swap_sequence.go:15-31 | with posts, repeats, disabled, re-enabled and re-invited accounts at the remote node between pages, and pages that get lost: at exit every row the remote log then has at or above the start was delivered with its current number and its post taken over, or saving it failed, or a failing first row of a page or a lost page ended the loop; no number is delivered twice; log, posts and tree of the puller are the old ones with the posts taken over in turn, each of which the remote node has shown and is acceptable, and what failed was shown and not acceptable; against a quiet log all rows are delivered in order exactly when no save fails, and then the content is exactly `Pulls.Pulled` |
| Sessions.PullIsNewest | clientsession/swap_sequence.go:107-117 | a complete pull leaves the puller with the pointwise newest posts |
| Sessions.EqualHeadsEqualPosts | clientsession/startsync.go:28-43 | equal merklehead bytes of two nodes mean equal posts |
| Sessions.EqualPostsEqualHeads | clientsession/startsync.go:40-43 | equal posts mean equal merklehead bytes when both trees are canonical |
| Sessions.StartSync | clientsession/startsync.go:19-60 | at most one pull, after which log, posts and tree of the node are exactly those of `Pulls.Pulled`, hence the newest posts of both; when a message is sent and which flag is set, exactly |
| Sessions.PeerSyncFinished | clientsession/rpc_sync_finished.go:13-55 | the initiator only compares heads, the responder runs its own half |
| Sessions.Synchronise | clientsession/rpc_sync_finished.go:33-52 | a whole round takes at most two pulls and two messages and ends with both nodes at the pointwise newest posts; the initiator is marked synced if and only if the trees that the two pulls build from the state before the round are the same (`Pulls.Agree`), the responder if and only if they are and the heads differed before; if both trees are canonical and every split is clean, the initiator is marked, and the responder if and only if the heads differed |
| IpldWalk.CollectBalanced | ipldwalk/ipldwalk.go:177-211 | collecting one reference keeps "count = external references + link occurrences" with one reference less, also in the middle of the recursion |
| IpldWalk.LiveMeansReachable | ipldwalk/ipldwalk.go:191-210 | with exact counts and no cycles the stored documents are exactly the reachable ones |
| IpldWalk.CollectionIsExact | ipldwalk/ipldwalk.go:177-211 | collection restores exact counts, and its survivors are exactly the documents reachable, in the old store, from the remaining references, with unchanged data |
| IpldWalk.RecursiveRemove | ipldwalk/ipldwalk.go:177-211 | the in-place recursion terminates and leaves the store of the specification |
| UpdateRoots.UniqueLinks | ipldwalk/ipldwalk.go:93-100 | one entry for each distinct hash, with the codec of a link to it |
| UpdateRoots.RemovedLinks | ipldwalk/ipldwalk.go:102-116 | one entry for each hash that the new links no longer mention |
| UpdateRoots.AddNewLinks | ipldwalk/ipldwalk.go:118-143 | one reference more for every distinct new link, which then holds the stored data, else the data that came along, else none; how many were found and not found; the fatal exit if and only if a link claims dag-cbor |
| UpdateRoots.RemoveOldLinks | ipldwalk/ipldwalk.go:145-155 | one reference less for every dropped link, whichever codec it claims |
| UpdateRoots.UpdateRoot | ipldwalk/ipldwalk.go:67-164 | the store after the cbor path: counts, links and data of every document, the new root, and the two numbers reported; the fatal exits, if and only if |
| UpdateRoots.ReplaceIsExact | sigbundle/sigbundle.go:230-245 | UpdateRoot followed by RecursiveRemove of the old root keeps all counts exact if and only if the new root was not stored before or has no links, links no hash twice, and every dropped link was used by the released old root alone |
| UpdateRoots.ReplaceLosesIff | sigbundle/sigbundle.go:230-245 | the replacement deletes a document that the remaining references still reach if and only if it is a dropped link with just one reference besides those of the released old root |
| UpdateRoots.SharedLinkIsLost | sigbundle/sigbundle.go:230-245 | a store with exact counts in which this happens: two roots share a link, and one is replaced by a root without links |
| UpdateRoots.SameRootTwice | sigbundle/sigbundle.go:230-245 | a store with exact counts that are wrong after a second account takes the same root |
| UpdateRoots.ReplaceRoot | sigbundle/sigbundle.go:230-245 | the two calls in sequence, with both conditions on the resulting store |
| InviteParse.Parse | invite/invite.go:73-138 | a panic if and only if the first entry about some account has a numeric timestamp and a level that is present and no number; otherwise the invites are read off the first entry about each account, in the order of these entries, each with the entry's time and its `lvlgap`, else `lvl`, else 0, as gap |
| InviteParse.PanicsIff | invite/invite.go:122-130 | the same condition at any point of the loop |
| InviteParse.ParsedInOrder | invite/invite.go:77-135 | the invites are in the order of the first entries about their accounts |
| InviteParse.ParsedOnce | invite/invite.go:73-138 | every account is invited once at most and never the sender; it is invited exactly if the first entry about it has a numeric timestamp, so that a later entry never makes up for a bad one |
| Accounts.EntryWith | account/account.go:76-86 | AddInviter makes the entry tell the new time and gap; an entry that was there keeps what it notes about the inviter's own time and level, a new one has what was given; other entries stay |
| Accounts.ChosenIsOldest | account/account.go:103-128 | the chosen inviter is the one older than all others, and the choice fails if and only if there is none such |
| UpdatedInvites.NothingBefore | account/recursive.go:210-212 | compared with an empty list every invite that counts is news and none is dropped |
| UpdatedInvites.EntriesWith | account/account.go:76-86 | after AddInviter an inviter has one entry, with the new timestamp and gap, and the entries of others are untouched |
| UpdatedInvites.EntriesWithout | account/account.go:88-101 | after RemoveInviter an inviter has no entry, and the entries of others are untouched |
| UpdatedInvites.DroppedIs | account/updateinvites.go:80-90 | dropped are exactly the invites that counted before and are not among those that count now |
| UpdatedInvites.MirrorIsRestored | account/updateinvites.go:17-108 | if the accounts listing `a` were those of its old invites newer than its active timestamp, neither failure can happen, the returned accounts are different ones, and once saved the accounts listing `a` are those of its new invites newer than it, with matching timestamp and gap; no other inviter's entries change |
| CascadeDisable.NoChange | account/recursive.go:54-107 | RecurseUpdateStatus leaves an account that is in order alone |
| CascadeDisable.NextInviter | account/account.go:103-128 | losing inviters makes the active invite newer, if it changes at all |
| CascadeDisable.RemoveOne | account/recursive.go:38-107 | one removed inviter anywhere in the cascade carries the whole standing of the graph along, touching nothing above |
| CascadeDisable.RemoveAll | account/recursive.go:188-195 | so does the loop of DisableAccount; its missing-account failure is unreachable |
| CascadeDisable.CheckNothing | account/recursive.go:119-155 | CheckAllInvited changes nothing while every invite stands; its missing-account failure is unreachable |
| CascadeDisable.DisableIsExact | account/recursive.go:19-200 | on an acyclic graph whose inviter and invited lists mirror each other, removing one inviter never fails, disables the least set closed under losing all inviters, leaves every other account its remaining inviters with the oldest active and its content unless that is older, and leaves merklehead and log agreeing with every account |
| CascadeReinvite.ReenableOne | account/recursive.go:67-101 | inviting an offline account again brings back its whole subtree and touches nothing else |
| CascadeReinvite.ReenableEach | account/recursive.go:214-220 | the copies taken before the loop are still good when their turn comes: the subtrees are disjoint |
| CascadeReinvite.DisabledIsSubtree | account/recursive.go:161-200 | in a forest the disabled accounts are exactly the subtree |
| CascadeReinvite.DropThenReinvite | account/recursive.go:161-236 | in a forest, disabling an account and re-adding the same inviter restores exactly its subtree with the same active inviters (account, timestamp, gap), contents and merklehead map, and touches no other account |
| CascadeReinvite.ThreeGenerations | account/recursive.go:19-107 | the hypotheses of the two theorems are met by a root, an account with content and an account invited by it |
| CascadeRecords.UpdateSaves | account/recursive.go:19-107 | the record that RecurseUpdateStatus stores: the root's is its copy; without inviters the account is disabled; otherwise it is enabled under the oldest inviter, keeping the old entry if that is the same offer, without content that is outdated, and with its invites flagged anew if it comes back |
| CascadeRecords.CheckAllHappens | account/recursive.go:109-159 | over a forest, after CheckAllInvited every active invite had its account there and up to date now; an inactive one makes its account list the inviter, enabled, if it is newer than the inviter's own, and leaves everything below alone if not |
| CascadeRecords.RemoveFromHappens | account/recursive.go:188-195 | over a forest, after DisableAccount every invited account, its invite active or not, has lost this inviter and no other |
| CascadeRecords.InvitesTakeEffect | account/recursive.go:19-236 | over a forest, what has become of every single invite after an update of an account, told by its record: the root checks its invites, an account without inviters takes them back, one that comes back makes the newer ones take effect, any other one checks them if its active inviter has changed |
| CascadeRecords.InactiveInvites | account/recursive.go:121-143 | when an update changes the active inviter, an inactive invite has its account stored, enabled and listing the inviter with its time, gap and the inviter's own time and level, if it is newer than the active invite, and nothing below it changes if not; the same for the root |
| CascadeRecords.UpdateLogs | account/recursive.go:67-95 | over a forest an update logs about the account exactly what changes: a removal when it is disabled with content or loses outdated content, its return, and nothing otherwise |
| CascadeIndexes.UpdateKeeps | account/recursive.go:19-107 | RecurseUpdateStatus of a fresh copy keeps everything under the account in step and touches nothing else, through every branch, whatever the timestamps |
| CascadeIndexes.CascadeKeepsStep | account/recursive.go:19-236 | over a forest every cascade ends, and if it does not fail "enabled with content", "in the merklehead with the account's timestamp" and "latest log event is not a removal" still coincide for all accounts |
| CascadeIndexes.EveryRowIsFound | clientsession/rpc_bundle_getbysequence.go:30-45 | then every log row that is not a removal names an enabled account with content, found with the merklehead's timestamp, and every such account has a row |
| Commits.StoredInStep | sigbundle/sigbundle.go:246-303 | storing a post keeps the indexes in step if and only if the content changed |
| Commits.ConcernedAreFresh | sigbundle/sigbundle.go:250-254 | the accounts returned by UpdateInvited are fresh copies of different children of the sender, also after the sender has been saved |
| Commits.CommitInStepIff | sigbundle/sigbundle.go:161-315 | a post in a forest ends, and if nothing fails the indexes agree afterwards if and only if the post changed the content |
| Commits.PostIsStored | sigbundle/sigbundle.go:246-303 | after a post in a forest that did not fail, the account holds the posted root, its time and exactly the posted invites, each active if and only if newer than the account's active invite; with the same root the record is unchanged; the merklehead has the time of the post |
| Commits.PostTakesEffect | sigbundle/sigbundle.go:250-313 | what the post means for every account below, told by the old and the posted invite: joined if the posted one counts and is new or changed, dropped if only the old one counted, left alone otherwise |
| Commits.ReturnedFor | account/updateinvites.go:17-108 | UpdateInvited returns exactly the accounts for which the post means something, each with its new entry or without one |
| Commits.SameContentAgain | sigbundle/sigbundle.go:173-177 | an account in a forest whose indexes do not agree any more after it signs the same content again |
| Levels.LevelIsDistance | invite/invite.go:42-48 | along a chain of inviters whose levels are noted rightly, the level is the number of invites from the root plus their gaps |
| Levels.LevelsAreDistances | invite/invite.go:42-48 | if every enabled account has noted its inviter's level, there is such a chain from the root for each of them |
| Levels.GrowthKeepsLevels | account/updateinvites.go:60-78 | posts that only add invites to new accounts keep it so |
| Levels.NotedStaysRightIff | account/recursive.go:109-159 | after an update an account that keeps its inviter has noted the right level if and only if the inviter's level has not changed |
| Levels.GapChangeIsMissed | account/account.go:76-86 | three accounts where a changed gap is not passed on |
| AccountCode.AccountStruct.InvitedAccount | account/updateinvites.go:60-76 | the entry of the returned copy has the inviter's own active time and level, unless it was there already |
| AccountCode.Database.FetchAccountFromDb | account/account.go:172-197 | a fresh copy of the stored record, unless missing or disabled |
| AccountCode.AccountStruct.AddInviter | account/account.go:76-86 | the first entry of the account is updated in place, otherwise one is appended |
| AccountCode.AccountStruct.RemoveInviter | account/account.go:88-101 | all entries of the account go, and whether there was one is reported |
| AccountCode.AccountStruct.DetermineActiveInviter | account/account.go:103-128 | the loop finds the first oldest inviter and whether another one is as old |
| AccountCode.AccountStruct.SaveToDb | account/account.go:199-220 | the record is stored unless an enabled account other than the root has no active inviter |
| AccountCode.AccountStruct.UpdateInvited | account/updateinvites.go:17-108 | new list, active flags, returned accounts in order, and the fatal exits, exactly |
| AccountCode.AccountStruct.MarkInvites | account/updateinvites.go:31-82 | the second loop: flags, changed accounts and what is left of the index |
| AccountCode.AccountStruct.DropInvites | account/updateinvites.go:84-104 | the third loop visits every dropped invite once, in any order |
| AccountCode.AccountStruct.RecurseUpdateStatus | account/recursive.go:19-107 | the final state and the failures are those of `Cascade.Update`, which `CascadeRecords.UpdateSaves` and `CascadeRecords.InvitesTakeEffect` describe |
| AccountCode.AccountStruct.CheckContent | account/recursive.go:67-95 | content is re-enabled, dropped or kept as `Cascade.Enable` says |
| AccountCode.AccountStruct.CheckAllInvited | account/recursive.go:109-159 | the loop over the invites does what `Cascade.CheckAll` says and leaves the account's own flags alone |
| AccountCode.AccountStruct.DisableAccount | account/recursive.go:161-200 | the account, the indexes and the invited accounts afterwards; the guard against remaining inviters |
| AccountCode.AccountStruct.ReenableWithContent | account/recursive.go:202-236 | flags recomputed, invited accounts updated, and the account back in log and merklehead |
| AccountCode.AccountStruct.UpdateAccounts | sigbundle/sigbundle.go:309-313 | the loop over the returned copies does what `Cascade.UpdateEach` says |
| AccountCode.TakeContent | sigbundle/sigbundle.go:246-258 | a changed root document replaces the old one, with its invites |
| AccountCode.ValidateAndSave | sigbundle/sigbundle.go:148-315 | a post is refused exactly if its account is missing, disabled, has a post as new, or an active invite as new, without any change; otherwise state and failure are those of the comparison, the save and the cascade; over any forest a saved post is held by the account as `Commits.PostIsStored` says |

## Left out

- Cryptography and transport: signatures, NaCl encryption, websockets, HTTP, LAN discovery and peer bookkeeping; a post arrives as one whose signature has been checked, and a remote call other than the one for a page succeeds.
- Codecs: CBOR, dag-pb and CAR; documents are decoded values. On re-reading, the code tells timestamps from links by the Go type `int`; the model tells them apart by constructor.
- `Doc.AddRef` (db/pastedata.go:43-60) and `ipldwalk.Get`: nothing modelled calls them.
- `WalkAndSaveUnixFS` and `RecursiveFetchDocs`: the unixfs path counts per visit and matches no invariant; `RecursiveAdd` is not implemented in the source and is its fatal exit here.
- UpdateRoots.ReplaceIsExact: assumes that no link lies about its codec, so that a link to a document with links claims dag-cbor and is the fatal exit, and that no count is about to wrap at 2^32.
- Names (`names/names.go`) and the private-mode switch of `ValidateAndSave`: they touch none of the modelled state.
- DeltaLogs.DeltaLog.Update: assumes fewer than 2^64 events.
- Feeds.Feed.Accept: assumes content that differs from the account's; where it is the same the source leaves the account's timestamp alone (`sigbundle/sigbundle.go:173-177, 257-258`). For the node that is pulled from, the step `Repeat` does that; `Commits.CommitInStepIff` is about that case.
- Sessions.Node.Publish: assumes changed content too, since otherwise merklehead and account timestamp part.
- Sessions.Synchronise: assumes that every post is newer than its account's invite. A newer invite with the very time of the post leaves it in place (`account/recursive.go:67-95`), and a peer with the same invite refuses it.
- Sessions.StartSequenceSwap: `LastSyncSequenceNo` is only read, as in the source, which never advances it while syncing.
- Sessions.SaveAccount: the invites are fixed during a pull, so that saving an inviter's post never makes the invited account known.
- Cascade and AccountCode: the merklehead is its map, so that the collapse of `removeItemRecursive` does not show there; counts of updated accounts, which are only logged, and the fields for quotas and sync status are not kept.
- AccountCode.AccountStruct.RecurseUpdateStatus: takes a recursion bound that suffices as a precondition, since Dafny code must end; over acyclic graphs any bound above the height does (CascadeIndexes.CascadeKeepsStep).
- CascadeDisable.DisableIsExact: is about one top-level call on a fresh copy; the content of an account that is disabled in several steps may or may not have been dropped on the way.
- CascadeIndexes.CascadeKeepsStep: is stated over forests; in other graphs a copy taken before a loop can be stale when its turn comes.
- Auto-invite counters, outbound queue, arguments, configuration and the deprecated head-by-head swap: easy, or bound to libraries.
