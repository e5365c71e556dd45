# Verification of enbu's multi-writer protocol

enbu shares secrets through storage that anyone may write to and that offers nothing but creating, listing, fetching and
deleting named objects. Writers publish signed revisions named by their own digest; readers rebuild the graph, decide which
revisions to trust and merge them. This project models that protocol in Dafny and proves its safety properties over every
graph, every listing order, every interleaving and every crash point it allows.

Verify with `dafny verify dfyconfig.toml`.

## How the model is built

- Digests are natural numbers: opaque, with the total order that sorting uses. An object carries the set of keys its
  signature verifies under, and the name of its own bytes. Decrypting a revision is a function of its name that gives its
  secrets, says that this device has no key, or fails.
- A revision's name is the digest of bytes that contain its parents' names, so revision graphs carry a ghost rank under which
  parents are lower than children. For member lists nothing is assumed: acyclicity follows from the height check
  (`Control.ChildAboveParents`, `Chain.AuthorizedDag`).
- Each package's loops are methods over the same state (worklists, `seen` sets, pending maps), proved against specifications that
  do not mention them: a least set, the maximal members of a set, a reachability relation, a transition relation.
- When a main operation succeeds, how it fails and what it leaves is also stated without those specifications: over signatures and
  keys, names that storage answers, pins, heads and secrets. So a step that is missing from both a method and its specification
  does not go unnoticed.
- Objects with fields that change are classes: `Graph`, `ControlView` with its memo, `Checkpoints` over its file, `StateView`,
  `Session`, `ResourceStore`, `Bucket`, `Checkout`, `Masker`, `ControlStorage`.
- Whole runs are sequences of events (`CompactionRuns`, `Founding`, `Checkpoint`, `HistoryIndex`, `Pulling`) or a call with its
  surroundings at each interaction (`Writing`): what storage then serves, what a listing then shows, and how a write then ends
  are arbitrary.
- Heights are 64-bit and wrap; varints are decoded within 64 bits; all other integers stay far below their width.

| module | part of the program |
|---|---|
| `Orders`, `Digests` | sorting, sets as sorted slices |
| `Dag` | pkg/wsp/dag.go |
| `Control`, `Chain`, `Loading`, `Membership`, `Updating`, `Forks` | pkg/wsp/control.go, pkg/wsp/chain.go, fork resolution in app/members.go |
| `Checkpoint` | pkg/wsp/checkpoint.go |
| `States`, `Reading`, `Merge`, `MergedRead`, `ResourceRead` | pkg/wsp/state.go, pkg/merge/merge.go, loading and reading in app/workspace.go |
| `Compaction`, `Compacting`, `CompactionRuns` | pkg/wsp/compaction.go, app/compact.go |
| `Writing` | changeResource in app/secrets.go, writing in app/workspace.go |
| `Founding` | app/init.go, pkg/wsp/trust.go, verifyControl in app/workspace.go |
| `History`, `HistoryIndex` | app/history.go, app/history_index.go |
| `Mask` | cli/mask.go |
| `Dotenv`, `Pulling` | pkg/bundle/bundle.go, pkg/schema/secretmap, dotenvWithLocal in app/secrets.go |
| `Frame` | pkg/storage/storage.go |
| `Findings` | concrete inputs for the exceptions below |

## Where the program falls short of the plain statement

Each has an exact condition and a concrete input.

- A revision that nobody trusts can still stop reads: when several heads must be merged, mergeResource checks the parents of every
  revision in the view, so an untrusted revision that names a parent storage neither shows nor excuses makes the read fail. With
  the same floors in force it happens exactly then, and nothing else changes (`MergedRead.OutsidersInjectNothing`,
  `Findings.OutsiderBlocksMerge`).
- A revision that nobody trusts can also change which trusted revisions are read. loadResource loads deletion records only when
  something is missing, so an untrusted revision that names a missing parent switches their floors on. The floor of a compaction
  that published its records and stopped before deleting then sets aside the edit of a writer that is not above it, and a read
  that merged the edit before succeeds without it. `ResourceRead.OutsidersChangeReads` and `ResourceRead.FloorsSwitchedOn` say
  exactly when a read stays the same; `Findings.OutsiderHidesAnEdit` is a concrete case. What is read still comes from trusted
  revisions alone (`ResourceRead.OutsidersAreNotRead`).
- For the same reason changeResource can apply one change twice: when floors come into force between its attempts, the next read
  need not lead to the revision that the call stored. `Writing.AppliedExactlyWhen` says when that happens,
  `Writing.ChangeLandsOnce` that it happens only behind a floor, and `Findings.ChangeLandsTwice` is a complete run that ends in
  success with the change applied to two bases; `Findings.StoryHappens` shows that its surroundings exist.
- The masker's output depends on how the output is cut into writes exactly when the beginning of a value contains another value
  without starting with one (`Mask.ChunkIndependence`, `Findings.SplitValueShows`). It holds when no value occurs further inside
  another (`Mask.SeparateValues`). What it promises about leaks holds regardless (`Mask.NoSecretShows`).
- Two overlapping compactions that each removed the floor of the other excuse nothing (`Compaction.OverlappingCompactions`,
  `Findings.CrossingFloors`).
- ResolveControlFork starts from the principals of the heads and cannot succeed when the heads give a device they all list
  different recipients (`Forks.ResolveControlFork`, `Findings.RecipientsCanDisagree`).
- A remembered "new" flag hides a repeat that a late parent reveals (`HistoryIndex.StaleExactly`, `Findings.LateParentIsMissed`);
  this cannot happen while revisions are added as descendants and removed by compaction (`HistoryIndex.DescendantsGainNothing`).
- ToDotEnv does not bound its output, so a map within the limits of a secret map can print to text that ImportDotenv refuses
  (`Dotenv.RoundTripExactly`, `Findings.LongValueDoesNotReadBack`). ExportDotenv does bound it (`Dotenv.ExportReadsBack`).

## Model

| member | source | states |
|---|---|---|
| `Dag.HeadsAreMaximal` | pkg/wsp/dag.go:46-61 | the revisions no other names are exactly those without a proper descendant, in every ranked graph |
| `Dag.Graph.Heads` | pkg/wsp/dag.go:46-61 | returns exactly those revisions, sorted |
| `Dag.Graph.Ancestors` | pkg/wsp/dag.go:64-81 | the depth-first walk returns exactly what is reached through parents inside the graph |
| `Dag.Graph.MergeBases` | pkg/wsp/dag.go:83-112 | exactly the common ancestors of all heads that no other common ancestor descends from, sorted |
| `Dag.BasesCoverCommonAncestors` | pkg/wsp/dag.go:83-112 | every common ancestor lies at or below some merge base |
| `Dag.GrownBases` | pkg/wsp/dag.go:83-112 | revisions added on top change no merge base of older heads |
| `Dag.Graph.Missing` | pkg/wsp/dag.go:30-43 | exactly the parents that are named and absent |
| `Control.Validate` | pkg/wsp/control.go:59-110 | accepts exactly the well-formed member lists |
| `Control.VerifyGenesis` | pkg/wsp/control.go:164-187 | accepts exactly a well-formed root of the workspace under the trusted name, signed by an admin it lists |
| `Control.VerifyChild` | pkg/wsp/control.go:194-244 | accepts exactly the signed Controls that name these parents, stand one height above them, and are signed under the key the last parent lists for their author, an admin of all of them; a resolution only inherits |
| `Control.CheckResolution` | pkg/wsp/control.go:246-266 | accepts exactly when every principal is inherited unchanged, and admin rights only from a parent that grants them |
| `Control.ChildAboveParents` | pkg/wsp/control.go:224-226 | an accepted child is strictly above each parent even where the 64-bit sum wraps |
| `Chain.AuthorizedIsLeast` | pkg/wsp/chain.go:148-170 | the authorized Controls are the least set that holds the genesis and is closed under VerifyChild |
| `Chain.AuthorizedDag` | pkg/wsp/chain.go:148-182 | they form a complete DAG that heights order strictly, with the genesis as only root |
| `Chain.OutsidersChangeNothing` | pkg/wsp/chain.go:148-170 | objects without authority change nothing, whoever they name and whoever names them |
| `Chain.AuthorizedIsSigned` | pkg/wsp/control.go:194-244 | every Control with authority is stored under its digest, by an admin of each parent, and signed under a key that a parent lists for that admin |
| `Chain.PairProvenance` | pkg/wsp/control.go:194-266 | every device and recipient pair traces back through Controls that have it to the genesis, or to a Control whose one parent lacked it; that Control is stored under its digest and its signature verifies under the key that the parent (the genesis itself) lists for its author, an admin there |
| `Chain.AdminProvenance` | pkg/wsp/control.go:194-266 | so does every admin flag, back to a signature by an admin listed before it; a resolution originates none |
| `Chain.BelowSomeHead` | pkg/wsp/chain.go:171-182 | every verified Control is at or below a head |
| `Loading.AcceptAll` | pkg/wsp/chain.go:144-170 | the repeated passes over the pending map end with exactly the authorized Controls, whatever order the map yields |
| `Loading.FetchAll` | pkg/wsp/chain.go:109-143 | fetches exactly what the listing and the genesis lead to through parents, and succeeds exactly when the names it comes across are not too many and none fails to be answered |
| `Loading.LoadControl` | pkg/wsp/chain.go:82-189 | a load succeeds, or reports a rollback for an accepted head the view lacks, exactly when the genesis verifies, the names are not too many and none fails; absent, damaged and foreign objects stop nothing; its view is exactly the authorized Controls the listing leads to, its heads the maximal ones |
| `Loading.OutsidersStopNoLoad` | pkg/wsp/chain.go:109-170 | whatever outsiders add to storage and to the listing, all that was shown is shown with the same content, and nothing else with authority |
| `Loading.ShownIsPartial` | pkg/wsp/chain.go:109-170 | what a partial listing shows is its part of what full storage authorizes |
| `Membership.UnbrokenListsThroughout` | pkg/wsp/chain.go:333-392 | a device that is unbroken from where it is listed is listed by every Control on every path to the head |
| `Membership.BrokenStaysBroken` | pkg/wsp/chain.go:333-392 | a removal seen once is seen by every later head, even if the device was added again |
| `Membership.Walk` | pkg/wsp/chain.go:345-392 | the two walks decide exactly whether the head descends from `from` and no Control between lacks the device while a parent lists it |
| `Membership.ControlView.MembershipUnbroken` | pkg/wsp/chain.go:333-344 | the memoised answer is always the recomputed one |
| `Membership.CurrentIsMemberThroughout` | pkg/wsp/state.go:136-144 | a current author is listed in every Control on every path from the one the revision names to the head |
| `Updating.PublishChild` | pkg/wsp/chain.go:302-325 | nothing that could never verify is stored; a stored update settles exactly when the load that follows is answered, shows it and has one head, below which is every other Control |
| `Updating.UpdateControl` | pkg/wsp/chain.go:247-264 | only an admin of an unforked head updates it; refused, not stored and settled are told apart exactly, and what settles follows the head by every reader's rules |
| `Updating.SuccessorFollows` | pkg/wsp/chain.go:247-264 | a change of the member list alone, by an admin, always follows the head unless the height wraps |
| `Forks.ResolveControlFork` | app/members.go:304-360 | joins a fork exactly when the author is an admin of every head and the heads agree on the recipients of the devices they all list (and the result fits); it lists exactly the devices, and makes admins of exactly those, that every head does |
| `Forks.JoinSucceedsWhen` | pkg/wsp/chain.go:270-300 | the joined Control follows the heads exactly when it is well formed and only inherits |
| `Checkpoint.AcceptedViewsOnlyGrow` | pkg/wsp/checkpoint.go:214-229 | over any interleaving on one file each accepted view contains every earlier accepted one |
| `Checkpoint.HeadOnlyMovesToDescendants` | pkg/wsp/checkpoint.go:214-229 | while views are unforked the head moves only to descendants |
| `Checkpoint.RemovedAuthorStaysRemoved` | pkg/wsp/state.go:136-144 | an author once judged removed after a revision's Control is never judged current for it again |
| `Checkpoint.Checkpoints.AcceptControl` | pkg/wsp/checkpoint.go:141-229 | one locked read, check and write: records the heads, or changes nothing when an accepted head is missing |
| `Checkpoint.Checkpoints.AcceptStates` | pkg/wsp/checkpoint.go:254-270 | records the heads of one resource unless an accepted head is neither shown nor excused |
| `Checkpoint.LastHeadsStand` | pkg/wsp/checkpoint.go:254-270 | the heads accepted last for a resource, and the Control they were accepted under, stay in the file whatever else is accepted or rejected |
| `Checkpoint.AcceptedHeadsAreMissed` | pkg/wsp/checkpoint.go:254-270 | the next update of the resource is rejected exactly when one of them is neither shown nor excused, and then changes nothing |
| `Checkpoint.Checkpoints.CheckStates` | pkg/wsp/checkpoint.go:234-252 | passes exactly when every accepted head is shown or excused |
| `States.VerifyRevision` | pkg/wsp/state.go:100-130 | accepts exactly well-formed revisions under their own name, for this resource, signed by the key that the Control they name lists for their author |
| `States.LoadStates` | pkg/wsp/state.go:203-266 | succeeds exactly when the names it comes across are not too many, none fails to be answered, and none holds a revision that names a Control the view lacks; then the view holds exactly the valid revisions that the listing leads to |
| `Reading.AsideMeetsMaximal` | app/workspace.go:412-461 | the walk that sets untrusted heads aside meets every maximal trusted revision |
| `Reading.FoundMaximal` | app/workspace.go:412-461 | dropping what another found revision covers leaves exactly the maximal trusted revisions |
| `Reading.Session.TrustedHeads` | app/workspace.go:412-461 | returns exactly the ancestor-maximal trusted revisions, sorted, without duplicates |
| `Reading.HeadsAreTops` | app/workspace.go:412-461 | the current heads are the trusted revisions that no other trusted revision descends from |
| `Reading.RemovedAuthorIsNotTrusted` | app/workspace.go:412-427 | a revision whose author was removed after the Control it names, or is no member now, is no head even if the author rejoined, unless this device accepted it before |
| `Reading.ReturningDeviceCarriesNothing` | app/workspace.go:422-426 | a device removed since it accepted such a revision does not trust it either |
| `Reading.MembersAreTrusted` | app/workspace.go:412-427 | above all floors, a revision by a member who was never removed since, or one accepted by a device that was never removed since, is at or below a current head |
| `Reading.BesideFloorIsNotTrusted` | app/workspace.go:418-421 | a revision that does not descend from every floor is set aside, whoever wrote it |
| `MergedRead.MergeResource` | app/workspace.go:362-404 | one trusted head is its content; several are merged against their merge bases, or the read fails as listed |
| `MergedRead.ReadEnds` | app/workspace.go:362-404 | which failure a read ends with, exactly, by the current heads, what this device can decrypt and what is missing; one head is its content |
| `MergedRead.UnreadableBaseLosesNothing` | app/workspace.go:384-393 | if this device has no key for some merge base, every key on which two heads differ is settled by a choice, or absent and reported with every head's value |
| `MergedRead.ReadLosesNoUpdate` | app/workspace.go:381-401 | a head that differs from a readable merge base, or says something where there is no base, is read, offered in a conflict, or a person chose |
| `MergedRead.ReadIsDetermined` | app/workspace.go:362-404 | a read has one outcome, whatever the order of heads, bases and keys |
| `MergedRead.OutsidersMoveNoHead` | app/workspace.go:412-461 | whatever floors are in force afterwards, untrusted revisions change neither the heads under those floors nor the merge bases |
| `MergedRead.OutsidersInjectNothing` | app/workspace.go:362-404 | what merging makes of a view: with the same records and floors for both reads, untrusted revisions leave the outcome as it was, except exactly when one names a missing, unexcused parent while several readable heads must be merged and nothing unexcused was missing before |
| `MergedRead.BothEditsAreRead` | app/workspace.go:362-404 | two trusted heads on one parent that edited different keys have that parent as their merge base, and the read holds both edits without a conflict |
| `ResourceRead.LoadResource` | app/workspace.go:269-313 | loads records exactly when a parent or an accepted head is missing; each end, and the floors and excused revisions it loads, are told apart exactly, an empty view too |
| `ResourceRead.ReadResource` | app/workspace.go:269-404 | loading and merging together end as the loaded floors and records determine |
| `ResourceRead.OutsidersAreNotRead` | app/workspace.go:269-404 | whatever untrusted revisions make of the load, a read that succeeds merges the heads that the older revisions have under the floors now in force |
| `ResourceRead.OutsidersChangeReads` | app/workspace.go:269-404 | a successful read stays the same exactly when the load still succeeds, the old heads stand under the floors now in force, and several heads are not stopped by an unexcused missing parent |
| `ResourceRead.FloorsSwitchedOn` | app/workspace.go:291-297 | where nothing was missing, it stays the same exactly when the added revisions name nothing missing, or the records load, every head is above every floor they show, and several heads have what is missing excused |
| `Findings.OutsiderHidesAnEdit` | app/workspace.go:291-297 | a concrete view in which an untrusted revision makes a trusted edit vanish from a read that succeeds |
| `Findings.OutsiderBlocksMerge` | app/workspace.go:371-377 | a concrete view on which that exception happens |
| `Merge.Merge` | pkg/merge/merge.go:58-92 | the merged map and the conflicts are what the per-key specification says, and every conflict key is reported once, in order |
| `Merge.NoLostUpdate` | pkg/merge/merge.go:95-146 | a head that differs from some base on a key is the outcome, or is offered in a conflict, or a person chose |
| `Merge.ConflictMeansHeadsDiffer` | pkg/merge/merge.go:95-146 | a conflict offers at least two values that heads hold |
| `Merge.AgreedKeyMerges` | pkg/merge/merge.go:95-128 | a key merges to the value on which the heads that differ from each base agree; a choice for it is ignored |
| `Merge.NothingMadeUp` | pkg/merge/merge.go:58-92 | what the merge says about a key some head says, or a person chose, or it is reported |
| `Merge.HeadsAsBases` | pkg/merge/merge.go:112-128 | with all heads added to the bases only unanimous keys are settled |
| `Merge.MergeIgnoresOrder` | pkg/merge/merge.go:58-146 | neither head order nor base order shows in the result |
| `Merge.DisjointEditsSurvive` | pkg/merge/merge.go:58-128 | two revisions of one base that changed different keys both survive without a conflict |
| `Compaction.VerifyCompaction` | pkg/wsp/compaction.go:104-130 | believes exactly well-formed records under their own name, for this resource, signed by an admin that the verified Control they name lists |
| `Compaction.ExcusedIsLeast` | pkg/wsp/compaction.go:179-208 | the excused revisions are the least set closed under records whose floor is shown or excused |
| `Compaction.Compute` | pkg/wsp/compaction.go:179-208 | the repeat-until-stable loop ends with that least set and the floors shown, whatever the order of records |
| `Compaction.ShownOrExcusedGrows` | pkg/wsp/compaction.go:179-208 | more records and fewer shown revisions lose nothing, if what disappeared is excused |
| `Compaction.OverlappingCompactions` | pkg/wsp/compaction.go:179-208 | two finished compactions of one view excuse everything exactly when their floors do not cross, and otherwise nothing |
| `Findings.CrossingFloors` | pkg/wsp/compaction.go:179-208 | two concrete records that excuse nothing |
| `Compaction.AboveFloors` | pkg/wsp/compaction.go:214-225 | whether a revision descends from every shown floor |
| `Compacting.CompactionFloor` | app/compact.go:154-171 | the floor is keep-1 first-parent steps behind the head, or where the history ends |
| `Compacting.FloorIsBehind` | app/compact.go:154-171 | the chain from head to floor: each link the first parent that is present, `keep` links unless the history ends before |
| `Compacting.KeptRevisions` | app/compact.go:110-137 | keeps exactly the revisions between the floor and the head |
| `Compacting.ChunksCover` | app/compact.go:174-197 | the records are valid, share the floor and together list exactly what is removed |
| `Compacting.CompactHistory` | app/compact.go:31-107 | whatever storage call it stops at, everything shown or excused before stays so; the floor is keep-1 first-parent steps back or where history ends, the published records are a first part of the exact list, every revision gone is in a published valid record whose floor is there; finished, exactly what is not between floor and head is gone |
| `CompactionRuns.CompactHistoryIsARun` | app/compact.go:72-107 | wherever CompactHistory stops, what it did to storage is a continuation of the run before it |
| `CompactionRuns.CompactionIsNeverARollback` | app/compact.go:94-104 | over every run of writers, devices and compactions stopped anywhere, where a device may accept heads from any view that ever was, every accepted head of every device passes the rollback check |
| `CompactionRuns.ExcusedOnceIsExcusedEver` | pkg/wsp/compaction.go:179-208 | what was excused once is shown or excused ever after |
| `CompactionRuns.FinishedCompactionKeepsTheHead` | app/compact.go:59-71 | the old trusted head is the only head, above everything kept and every floor, and still the trusted one |
| `CompactionRuns.FinishedCompactionReadsTheSame` | app/compact.go:59-71 | reading gives the same outcome as before |
| `CompactionRuns.FinishedCompactionExcuses` | app/compact.go:94-104 | all it removed is excused, and so is every missing parent that was shown or excused before |
| `Writing.ChangeResource` | app/secrets.go:220-325 | the call ends as its attempts determine one by one: read, decide, look again, publish; storage gains exactly the revisions of the attempts whose write was kept |
| `Writing.ReadGives` | app/secrets.go:233-254 | a read finds nothing exactly where nothing is shown and nothing was accepted, and has heads and content exactly where load and merge succeed |
| `Writing.ReadEndsCall` | app/secrets.go:233-254 | a failed read, conflicts, or other heads than the caller saw end the call with an error and nothing more stored |
| `Writing.EmptyResourceEnds` | app/secrets.go:236-247 | on an empty resource sync and delete are done, edit and resolve fail, add and restore publish a first revision unless the change fails or changes nothing |
| `Writing.ChangeEnds` | app/secrets.go:261-283 | a change that fails, or has nothing to do on one head, ends the call; so does a second look that fails |
| `Writing.ChangeGoesOn` | app/secrets.go:261-323 | a second look that finds other heads makes the call try again; one that finds the same publishes on exactly these, and how that ends depends on the write as listed |
| `Writing.LastAttemptEnds` | app/secrets.go:226-229 | five attempts for a sync and three otherwise, then the call fails |
| `Writing.OnlySeenIsPublished` | app/secrets.go:249-251 | over all attempts, every stored revision of a call that names the heads its caller saw has exactly these as parents, or is the first of an empty resource |
| `Writing.RunIsBuilt` | app/secrets.go:228-318 | over all attempts each stored revision is built on exactly the trusted heads of its read, found again by the second look, and applies the change unless those heads lead to an earlier revision of the call |
| `Writing.AppliedExactlyWhen` | app/secrets.go:254-268 | a stored revision applies the change exactly when nothing its read trusted is, or descends from, an earlier revision of the call; otherwise it holds merged content only |
| `Writing.AppliedAgainOnlyBehindFloors` | app/secrets.go:254-268 | a later revision repeats the change only where a floor excludes every earlier revision of the call; otherwise it descends from them |
| `Writing.ChangeLandsOnce` | app/secrets.go:220-325 | the change lands in the first stored revision and in no other, and the others descend from it, for any listings, other writers and disappearances, unless a floor hides the call's revisions |
| `Writing.NoRecordsHideNothing` | app/workspace.go:291-297 | without deletion records no floor hides them |
| `Writing.SameFloorsHideNothing` | app/workspace.go:291-297 | nor do floors that stay the same while nothing is deleted |
| `Writing.DoneIsDone` | app/secrets.go:233-325 | success means that a revision was stored, or that a read found nothing to do |
| `Writing.OwnIsCovered` | app/workspace.go:412-461 | a revision of the call that no floor excludes is at or below a head of every later read |
| `Writing.ListedIsShown` | pkg/wsp/state.go:203-266 | every view holds what is listed and stored |
| `Writing.PublishedInRead` | app/secrets.go:328-341 | decides exactly whether one of the call's revisions is below a head that was read |
| `Findings.ChangeLandsTwice` | app/secrets.go:220-325 | a concrete run that succeeds with the change in two stored revisions |
| `Founding.Checkout.PinRoot` | pkg/wsp/trust.go:116-146 | compare-and-set of a pin: only none, the same root, the expected root, or with a person's confirmation any root is replaced |
| `Founding.Checkout.EnsureControl` | app/init.go:188-330 | for every point at which the process dies, exactly the first durable writes of the run's course were made; a run that is not cut short succeeds exactly as the pins, the configured genesis, the record, storage and a person's confirmation allow (first use trusts), and leaves both pins at its root and nothing else changed |
| `Founding.CourseEnds` | app/workspace.go:144-206 | when a run succeeds, whether it founds, and which pinned root it reports as replaced |
| `Founding.CourseLeaves` | app/workspace.go:174-206 | what a successful run leaves: both pins at its root, the record dropped, the root in storage, every other pin and request as before |
| `Founding.CrashKeepsFounding` | app/init.go:188-330 | wherever a run dies, the founding is recorded, published before pinned, and pinned in order |
| `Founding.FoundingSurvivesCrashes` | app/init.go:188-330 | after any number of crashed runs one uncut run ends with configured genesis = both pins = the only genesis ever published |
| `Founding.FinishedMeansPinned` | app/workspace.go:144-206 | a successful run leaves both pins at the configured genesis that storage holds; a refused one writes nothing |
| `Founding.PinsMoveAsAuthorized` | app/workspace.go:159-206 | without confirmation a pin stays, goes from none to the run's root, or is the repository pin a founding record names |
| `Founding.PinsOutlastTheConfig` | pkg/wsp/trust.go:91-146 | whatever enbu.toml and storage are changed to, no run without confirmation moves a workspace pin, nor a repository pin unless the checkout founds a workspace itself |
| `History.ChronologicalIsUnique` | app/history.go:233-268 | the order of a history is unique: no map iteration shows in it |
| `History.AncestorsFirst` | app/history.go:233-268 | whatever the clocks say, all ancestors come before a revision |
| `History.TimeDecides` | app/history.go:233-268 | where ancestry does not decide, the earlier time comes first, and of equal times the smaller digest |
| `History.ChronologicalOrder` | app/history.go:233-268 | outputs every revision once, always the least by time and digest among those whose parents are out |
| `HistoryIndex.HistoryStates` | app/history.go:217-227 | keeps exactly what the trusted heads lead to |
| `HistoryIndex.List` | app/history.go:101-178 | lists the readable revisions in order less those that repeat a parent, and saves flags that are right for what it saw |
| `HistoryIndex.WorkOut` | app/history.go:182-210 | finds a present readable parent of the same content exactly when there is one |
| `HistoryIndex.FreshListing` | app/history.go:101-178 | without an index the entries are exactly the readable revisions of which no present readable parent has equal secrets |
| `HistoryIndex.StaleExactly` | app/history.go:139-147 | the index changes a listing exactly when a revision flagged as new now repeats a parent |
| `HistoryIndex.IndexNeverMatters` | app/history_index.go:62-109 | over any run of listings, saved or not, a listing with the index left equals one without, if no known revision gains a parent |
| `HistoryIndex.DescendantsGainNothing` | app/history_index.go:62-109 | that is so whenever revisions are added as descendants and removed for good |
| `Findings.LateParentIsMissed` | app/history.go:139-147 | a concrete index that hides a repeat |
| `Mask.MaskedValues` | cli/mask.go:26-45 | the values are exactly the secrets and lines of secrets that are long enough, longest first |
| `Mask.LinesAreRuns` | cli/mask.go:36-40 | lines are exactly the maximal runs without line breaks |
| `Mask.FirstMatch` | cli/mask.go:124-132 | the earliest value, and the longest that starts there |
| `Mask.PrefixLen` | cli/mask.go:148-159 | the longest end that begins some value |
| `Mask.Conceal` | cli/mask.go:100-120 | agrees with scanning one byte or value at a time |
| `Mask.Masker.Write` | cli/mask.go:72-82 | keeps what is written and held equal to the stream of all chunks so far |
| `Mask.Masker.Flush` | cli/mask.go:84-97 | writes what was held back, with nothing left to wait for |
| `Mask.NothingIsLost` | cli/mask.go:72-120 | for every chunking, putting the replaced values back gives exactly the bytes written |
| `Mask.NoSecretShows` | cli/mask.go:72-120 | for every chunking, after the flush no run of passed bytes contains a value |
| `Mask.SecretsAreMasked` | cli/mask.go:26-120 | from the secrets to the output: no run of passed bytes is a secret of six bytes or more or such a line of one, only those are replaced, and the notice stands for them |
| `Mask.OnlyABeginningIsHeld` | cli/mask.go:100-120 | only the beginning of a value is ever held back |
| `Mask.ChunkIndependence` | cli/mask.go:100-159 | the output is one leftmost-longest pass for every chunking exactly when no beginning of a value contains a value without starting with one |
| `Mask.SeparateValues` | cli/mask.go:100-159 | that holds when no value occurs further inside another |
| `Findings.SplitValueShows` | cli/mask.go:100-120 | a concrete pair of values and chunks for which it fails |
| `Dotenv.ImportDotenv` | pkg/schema/secretmap/dotenv.go:23-86 | the loop computes exactly what statement-by-statement parsing gives, with all limits |
| `Dotenv.ParseQuoted` | pkg/schema/secretmap/dotenv.go:89-118 | the value up to the closing quote, with escapes, and what follows |
| `Dotenv.BlankFirst` | pkg/schema/secretmap/dotenv.go:29-33 | white space in front of a statement says nothing |
| `Dotenv.BareLine` | pkg/schema/secretmap/dotenv.go:41-53 | a line that starts with a name and an equals sign assigns what follows to that name |
| `Dotenv.ExportedLine` | pkg/schema/secretmap/dotenv.go:38-46 | an assignment may stand behind the word export and is cut at its first equals sign |
| `Dotenv.UnquotedValue` | pkg/schema/secretmap/dotenv.go:68-77 | an unquoted value is literal without outer white space, up to a comment behind a blank |
| `Dotenv.SingleQuotedValue` | pkg/schema/secretmap/dotenv.go:55-67 | between single quotes everything is literal, line breaks too |
| `Dotenv.CommentsAndDuplicates` | pkg/schema/secretmap/dotenv.go:34-52 | comment lines say nothing; a second assignment to a name makes the text invalid |
| `Dotenv.ValidateMap` | pkg/schema/secretmap/secretmap.go:67-88 | accepts exactly maps within the limits, whatever the order of iteration |
| `Dotenv.ChainIsEscape` | pkg/bundle/bundle.go:36-39 | the four replacements one after the other escape each character on its own |
| `Dotenv.ToDotEnv` | pkg/bundle/bundle.go:23-43 | prints the entries in key order, and fails exactly on a key with a line break |
| `Dotenv.RoundTripExactly` | pkg/bundle/bundle.go:23-43 | for every map, parsing the printed text gives it back exactly when names, NULs, entry count and printed size fit |
| `Dotenv.ExportReadsBack` | pkg/schema/secretmap/dotenv.go:122-143 | whatever the exporter prints reads back as the same map |
| `Dotenv.ExportDotenv` | pkg/schema/secretmap/dotenv.go:122-143 | prints exactly the valid maps whose text is within the bound |
| `Findings.LongValueDoesNotReadBack` | pkg/bundle/bundle.go:23-43 | maps within the limits whose printed text is refused |
| `Pulling.SplitAtMarker` | app/secrets.go:615-623 | splits at the first line that is the marker, or nowhere |
| `Pulling.SplitRendered` | app/secrets.go:531-623 | what a pull wrote splits exactly at the marker it wrote |
| `Pulling.DotenvWithLocal` | app/secrets.go:531-611 | fails exactly on an unusable key or a part that does not parse; below the marker go exactly the variables that are neither secrets nor enbu's own; what is kept and what is removed are reported exactly |
| `Pulling.PullsKeepLocal` | app/secrets.go:531-611 | after any run of pulls the file is the last secrets, the marker, and the original locals less every key any pull wrote |
| `Pulling.PulledPartsReadBack` | app/secrets.go:531-611 | the local part reads back exactly when it fits, the secrets above the marker exactly when they fit with a byte to spare for the line break |
| `Frame.Uvarint` | pkg/storage/storage.go:333-345 | decodes within sixty-four bits and never past the buffer |
| `Frame.DecodePut` | pkg/storage/storage.go:309-321 | decoding undoes encoding, whatever follows |
| `Frame.FrameObject` | pkg/storage/storage.go:309-321 | writes the number of parts, the length of each, and then the parts one behind the other |
| `Frame.ReadLayout` | pkg/storage/storage.go:327-368 | accepts exactly headers within all bounds whose parts fill the object; no sum overflows |
| `Frame.AcceptedTiles` | pkg/storage/storage.go:327-368 | for arbitrary bytes and any claimed size, accepted parts tile the object behind its header |
| `Frame.FramingReadsBack` | pkg/storage/storage.go:309-368 | for every valid object the layout of its frame gives back exactly the head and each blob |
| `Frame.HeadReadsBack` | pkg/storage/storage.go:371-384 | a published head reads back under its own name |
| `Frame.BlobSection` | pkg/storage/storage.go:387-392 | of an accepted layout: an error exactly when there is no such blob; otherwise a section behind the head and inside the object, which in a framed object holds that blob |
| `Frame.BlobReadsBack` | pkg/storage/storage.go:309-392 | each blob of a framed object is read back from its section |

## Left out

- Signing, verification, digests, the canonical encoding and age encryption are uninterpreted; malformed digests, device ids and
  recipients count as bytes that do not decode.
- Storage backends, HTTP and OAuth; storage is a map of immutable named objects with arbitrary listings.
- Keys in hardware, keyrings and files; temporary files, locks and atomic renames are single steps.
- Budgets on fetched bytes and prefetching in parallel; a load that exceeds its budget ends without a result.
- The commands, progress events, wording of errors, environments, TOML and .gitignore editing.
- The retries of a read while storage changes under it: each attempt reads one view.
- Join requests, and publishing them.
- `Writing.ChangeResource`: assumes that the writer stays a member of an unforked workspace and that publishing is atomic.
- `Writing.ChangeLandsOnce`: asks that no floor in force at a later read hides the call's own revisions, because the program does not promise more (see above); with no floors, other writers' revisions may appear, go unlisted or disappear.
- `MergedRead.OutsidersInjectNothing`: keeps records and floors fixed, because it is about merging a loaded view; what untrusted revisions do through loading is `ResourceRead.OutsidersChangeReads`.
- `Compacting.CompactHistory`: the deletion of revisions that do not verify (app/compact.go:140-151) is not modelled; no view ever shows them.
- `CompactionRuns.CompactionIsNeverARollback`: compactions may overlap only if neither removes the floor of the other; crossing floors are the exception above.
- `Founding.FoundingSurvivesCrashes`: nobody else uses the storage before the founding is recorded, and no other process moves these pins during a run.
- `Forks.ResolveControlFork`: storing the resolution is `Updating.PublishChild`; the command's re-encryption afterwards is not modelled.
- `Mask.Masker.Write`: a failing output is not modelled; bytes are characters.
- `Dotenv.ImportDotenv`: text is a sequence of Unicode characters, so bytes that are not UTF-8, which it refuses first, are outside the model.
- `Pulling.DotenvWithLocal`: read errors other than a missing file are not modelled.
- `Frame.ReadHead`: read errors are not modelled; a file shorter than its claimed size reads as zeros.
- `Updating.UpdateControl`: the canonical sorting done when signing is part of the abstract change.
