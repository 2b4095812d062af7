# dulwich_merge: a verified model of the recursive three-way merge

This project models the merge engine that the dulwich_merge repository
builds on top of Dulwich's object store. It covers five pieces of that engine:

- **Merge-base search** (`graph_fixed.py`, module `Graph`). `_find_lcas` walks
  a worklist of `(commit_time, commit)` pairs, taking the newest entry each
  time, and ORs the flags ANC_OF_1, ANC_OF_2, DNC and LCA into a per-commit
  state map. It returns the lowest common ancestors, oldest first.
  `find_merge_base`, `find_octopus_base` and `can_fast_forward` sit on top.
  The commit graph is a finite map from commit to parents and to commit time.
- **Tree-level three-way merge** (`merge.py`, modules `TreeTypes` and
  `TreeMerge`). `merge_tree` is a decision table over pairs of dulwich
  `TreeChange` records. `_merge_entry` applies the same-id, binary and mode
  rules. The `MergeResults` accumulator and the overlay of merged entries on
  this side's tree (`_updated_tree_entries_with_changes`) are modelled as
  classes and loops. So are the virtual merge base built from several LCAs
  and the base choice and staging decisions of `merge`.
- **The older tree merge** (`merge_addl.py`, module `TreeMergeAddl`). It has
  the same decision table, but raises `NotImplementedError` where `merge.py`
  reports an `'ni'` conflict. Its `merge` uses the oldest LCA as the base.
- **The diff3 chunk merger** (`diff3merge.py`, module `Diff3`). The class
  `Merge3Way` turns two tagged diff streams into ancestor-to-side match maps.
  It then advances the three cursors `on`/`an`/`bn`, cuts stable and unstable
  chunks, and resolves each chunk or writes a conflict block.
- **Index versus working copy** (`index_addl.py`, module `IndexChanges`).
  `changes_from_workingdir` reports removed, modified and untracked names.
  It uses a lookup function and a mutable set of names not yet seen.

The object store is represented by its answers, passed in as parameters:
- `tree_changes` output
- blob contents
- `is_binary`
- tree and blob ids
- a clock that gives the commit time of each virtual commit from its id
- the file merger

Python exceptions the source can raise become `Failure` values. A generator
that raises part-way is a `Stream` of the items it yielded plus the
failure. The exceptions modelled are:
- `AttributeError` on `other_entry.old`
- an unbound `this_entry`
- `pop(0)` on an empty list
- `NotImplementedError`
- an unbound `merge_base`
- the unpacking of a commit list that is not a pair
- `set.remove` of an absent name

One quirk of merge.py is modelled as written:
- `merge.py:304` compares a `TreeChange` (this side's change at the path) with
  a `TreeEntry`, which are never equal. So any add on this side at the path
  of an add on the other side is a structure conflict, even when both added
  the same content (`TreeMerge.BothSidesAddSameFiles`). Adds are keyed by
  their old path, which is `None`, so only this side's last add can make an
  identical change be skipped.

A second quirk is modelled as written too. Deletion records
`TreeEntry(path, None, None)` never reach the overlay (`merge.py:201`,
`merge.py:475`): `TreeMerge.MaterialEntries` keeps only entries truthy in
every field.

## Model

| member | source | states |
|---|---|---|
| Graph.PListGet | graph_fixed.py:25-33 | pops the entry at `Newest`: the rest is the list without exactly that entry, one shorter |
| Graph.Newest | graph_fixed.py:25-33 | the chosen index has the greatest stamp, and every earlier index has a strictly smaller one, so the earliest of the newest entries wins |
| Graph.HasCandidates | graph_fixed.py:46-51 | true exactly when some queued commit is known and not flagged DNC |
| Graph.MarkShrinks | graph_fixed.py:78-90 | OR-ing flags a parent lacked strictly shrinks the finite set of missing (commit, flag) pairs, which bounds the walk |
| Graph.MarkLcaKeepsMissing | graph_fixed.py:70-74 | marking a commit LCA leaves the set of missing (commit, flag) pairs unchanged |
| Graph.InsertByStampPerm | graph_fixed.py:97-100 | inserting into the stamp-ordered result keeps exactly the old elements plus the new one |
| Graph.InsertByStampSorted | graph_fixed.py:97-100 | insertion keeps the list sorted by stamp |
| Graph.SortByStamp | graph_fixed.py:99 | `results.sort` by stamp: the result is ordered by ascending stamp and is a permutation of the input |
| Graph.InsertByStampDistinct | graph_fixed.py:97-100 | insertion of a commit not yet present keeps commits distinct |
| Graph.SortByStampDistinct | graph_fixed.py:97-100 | sorting distinct commits keeps them distinct and keeps the same elements |
| Graph.QueueParents | graph_fixed.py:78-90 | flags only grow; a parent is queued only when it gains a flag it lacked and its stamp is at least `min_stamp`; the walk invariant is kept |
| Graph.QueueFacts | graph_fixed.py:78-90 | the parent loop only grows flags, never changes other commits, gives every parent at or above `min_stamp` the visited flags, and queues only parents with their own stamps |
| Graph.QueueShrinks | graph_fixed.py:78-90 | queueing parents never adds a missing (commit, flag) pair, and removes one whenever a parent is queued |
| Graph.MarkKeepsWalkInv | graph_fixed.py:84-90 | OR-ing the visited commit's ancestry flags into a parent at or above `min_stamp` and queueing it keeps the walk invariant: an ANC_OF_1 flag still means an ancestor of `c1`, an ANC_OF_2 flag an ancestor of some `c2` |
| Graph.Survivors | graph_fixed.py:95-98 | the results are exactly `SurvivorsOf` the candidates: those not flagged DNC, each commit once |
| Graph.SurvivorsOf | graph_fixed.py:95-98 | an entry survives exactly when it is a candidate and its commit is not flagged DNC |
| Graph.StartWalk | graph_fixed.py:55-61 | the initial state flags `c1` ANC_OF_1 and each `c2` ANC_OF_2, and queues all of them |
| Graph.StartFlagsMeaning | graph_fixed.py:55-61 | the initial flag map holds exactly `c1` and the `c2s`; `c1` has ANC_OF_1 and each `c2` ANC_OF_2, and `c1` listed among the `c2s` gets both |
| Graph.VisitNext | graph_fixed.py:65-90 | one iteration is the step function `Step` of the walk, keeps the walk invariant, and strictly shrinks the missing flag pairs |
| Graph.BothSidesMask | graph_fixed.py:69-70 | masking the flags to the ancestry bits gives exactly ANC_OF_1 and ANC_OF_2 when both are set and DNC is not |
| Graph.MarkedFacts | graph_fixed.py:69-77 | marking a commit keeps every ancestry bit, only grows flags, and gives LCA to a commit reached from both sides |
| Graph.StepKeepsFrontier | graph_fixed.py:65-90 | each step keeps the frontier: `c1` and the `c2s` keep their flags, a DNC commit lies strictly below a candidate, a commit no longer queued has passed its ancestry flags to every parent at or above `min_stamp`, and a commit with both ancestry flags is queued or flagged LCA or DNC |
| Graph.StepDecreases | graph_fixed.py:65-90 | each step shrinks the missing flag pairs, or keeps them and shortens the queue, so the walk ends |
| Graph.CommonAboveCandidate | graph_fixed.py:65-90 | once the queue holds only DNC commits, every common ancestor of `c1` and some `c2` lies at or below a candidate, provided no commit is older than `min_stamp` |
| Graph.MaximalSurvives | graph_fixed.py:92-101 | in an acyclic graph, a commit below a candidate lies at or below a surviving one, because DNC is only set on commits strictly below a candidate |
| Graph.WalkCovers | graph_fixed.py:36-101 | at the end of the walk on an acyclic graph with no commit older than `min_stamp`, every common ancestor lies at or below a returned LCA |
| Graph.RunWalk | graph_fixed.py:53-90 | the loop ends with the walk invariant and the frontier property, no queued commit left without DNC, and the state of the walk definition `WalkFrom` |
| Graph.LcaIff | graph_fixed.py:69-98 | a commit survives exactly when it is flagged LCA and not DNC |
| Graph.FindLcas | graph_fixed.py:36-101 | the result is the walk definition `LcasOf`; every returned commit is an ancestor of `c1` and of some `c2`, respects `min_stamp`, and is returned exactly when it is flagged LCA and not DNC; the list is sorted by stamp with no duplicates; on an acyclic graph with no commit older than `min_stamp` every common ancestor lies at or below a returned commit |
| Graph.Finish | graph_fixed.py:92-101 | the final pass returns exactly the candidates not flagged DNC, sorted by stamp and distinct, each flagged ANC_OF_1, ANC_OF_2 and LCA; it is `LcasFrom` of the final state |
| Graph.FindMergeBase | graph_fixed.py:105-132 | `[]` for no ids, `[c1]` for one id or when `c1` is among the others; otherwise `MergeBaseOf`: ancestors of the first id and of some other id, sorted by stamp and distinct, which cover every such common ancestor when the graph is acyclic and no commit has a negative time (the walk uses `min_stamp=0` and skips older parents) |
| Graph.SecondOfPair | graph_fixed.py:105-132 | with two ids, an ancestor of some of `ids[1..]` is an ancestor of `ids[1]` |
| Graph.PairCovers | graph_fixed.py:105-132 | with two ids, merge bases of `ids[0]` against `ids[1..]` are common ancestors of both ids, and cover all their common ancestors when the graph is acyclic and no commit has a negative time (the walk uses `min_stamp=0` and skips older parents) |
| Graph.FindOctopusBase | graph_fixed.py:135-165 | `[]` for no ids, `[c]` for one id or two equal ids; every result is a common ancestor of all the ids, and every common ancestor of all of them lies at or below a result when the graph is acyclic and no commit has a negative time (the walk uses `min_stamp=0` and skips older parents) |
| Graph.OctopusFold | graph_fixed.py:148-165 | folding the ids one by one keeps results that are common ancestors of all ids seen, and they cover all of those ids' common ancestors when the graph is acyclic and no commit has a negative time (the walk uses `min_stamp=0` and skips older parents) |
| Graph.ExtendBases | graph_fixed.py:155-162 | the merge bases of the next id against each current base are common ancestors of that id and of some base, and cover all such ancestors when the graph is acyclic and no commit has a negative time (the walk uses `min_stamp=0` and skips older parents) |
| Graph.FoldSound | graph_fixed.py:155-162 | a result of the next fold step is an ancestor of every id folded so far |
| Graph.FoldCovers | graph_fixed.py:155-162 | a fold step that covers the next id keeps every common ancestor of the ids folded so far at or below a result |
| Graph.CanFastForward | graph_fixed.py:168-191 | true exactly when `c1 == c2` or the walk from `c1` against `c2`, cut at `c1`'s stamp, returns exactly `[c1]`; a true answer means `c1` is an ancestor of `c2` |
| Graph.AncestorTrans | graph_fixed.py:78-90 | ancestry through parent links is transitive |
| Common.SortPathsCorrect | merge.py:127-128 | sorting the path keys yields a strictly increasing byte-wise order that is a permutation of the keys |
| Common.LexTransitive | merge.py:127-128 | byte-string order is transitive |
| Common.LexTotal | merge.py:127-128 | byte-string order is total on distinct strings |
| Common.Slice | diff3merge.py:288-290 | Python list slicing with clamped bounds: the elements from `lo` to `hi` when both are in range, the tail when only `hi` overshoots, nothing when `hi <= lo` or `lo` is past the end |
| Common.SliceSplit | diff3merge.py:286-328 | two adjacent slices, even ones whose end overshoots the list, join into the slice across both |
| TreeTypes.ByOldPathLast | merge.py:289-291 | the dictionary built from a change list maps each old path to its last change |
| TreeTypes.ByOldPathInByNewPath | merge.py:289-291 | a change found by old path also has its new path in the new-path dictionary |
| TreeTypes.ByOldPath | merge.py:290 | the dictionary by old path has exactly the old paths of the changes as keys, each mapped to one of the changes with that old path |
| TreeTypes.ByNewPath | merge.py:291 | the dictionary by new path has exactly the new paths of the changes as keys, each mapped to one of the changes with that new path |
| TreeTypes.Classify | merge.py:292-362 | a change equal to this side's change at its old path is skipped (iff); an add or copy facing an add at the same new path is a both-added conflict (iff); taking other's entry takes its new entry |
| TreeTypes.DeleteVersusModify | merge.py:310-317 | delete against modify, in either direction, is a conflict |
| TreeTypes.OtherOnly | merge.py:298-317 | a change this side did not touch takes other's entry, and a delete deletes |
| TreeTypes.JoinPath | merge.py:69-70 | joining a directory prefix and a name inserts exactly one slash |
| TreeTypes.TreeEntries | merge.py:67-73 | the recursive tree walk yields entries whose path, mode and id are all present |
| TreeTypes.TreeEntriesUnderBase | merge.py:67-73 | every entry the walk yields lies strictly below the base path |
| TreeTypes.ItemsEntriesUnderBase | merge.py:67-73 | the walk of one tree's items stays below the base path |
| TreeMerge.Blob | merge.py:238-240 | a blob is read exactly when its id is present |
| TreeMerge.ModeRule | merge.py:266-274 | the mode rule is three-way merge of a scalar: other's mode when this kept the base mode or matches other, this's mode when other kept the base, no answer when all three differ |
| TreeMerge.BinaryRule | merge.py:243-254 | equal binary content returns this entry; differing content returns this under `ort-ours`, other under `ort-theirs`, and a structure conflict otherwise |
| TreeMerge.TextRule | merge.py:257-274 | one chunk conflict per conflicting range and an entry with the merged blob and the mode rule's mode; all three modes differing gives a single `'ni'` conflict and no entry |
| TreeMerge.MergeEntry | merge.py:215-274 | equal ids return this entry with no conflicts; with no file merger it raises on `other_entry.old`; with all three ids present and a merger it returns a well-formed result |
| TreeMerge.Yield | merge.py:292-362 | a decision yields nothing exactly when it is a skip; what it yields is well-formed |
| TreeMerge.MergeTreeFrom | merge.py:277-362 | the generator yields at most one well-formed item per change of the other side |
| TreeMerge.MergeTree | merge.py:277-292 | `merge_tree` keys this side's changes by old and by new path and walks the other side's changes: at most one well-formed item per change of the other side, and nothing when the other side changed nothing |
| TreeMerge.MergeTreeThisUnchanged | merge.py:298-362 | when this side changed nothing, the merge yields other's changes in order, without conflicts and without raising |
| TreeMerge.MergeTreeSharedChanges | merge.py:293-296 | changes shared with this side yield nothing |
| TreeMerge.BothSidesAddSameFiles | merge.py:298-308 | two sides adding the same two files yield a single structure conflict, because only the last add is keyed and a change record never equals an entry |
| TreeMerge.ConflictsOf | merge.py:464-469 | every non-blocking conflict among well-formed items has the chunk shape (entries on all three sides) |
| TreeMerge.MaterialEntries | merge.py:475-476 | only entries truthy in every field are kept, so deletion records are dropped |
| TreeMerge.HandMergePaths | merge.py:377-380 | the hand-merge set is exactly the this-paths of the chunk conflicts |
| TreeMerge.MergeResults.constructor | merge.py:367-372 | all lists start empty, the set is empty and there is no tree id |
| TreeMerge.MergeResults.AddStructureConflict | merge.py:374-375 | appends to the structure conflicts and changes nothing else |
| TreeMerge.MergeResults.AddChunkConflict | merge.py:377-380 | appends to the chunk conflicts and adds its this-path to the hand-merge set, nothing else |
| TreeMerge.MergeResults.AddEntry | merge.py:386-387 | appends to the updated entries and changes nothing else |
| TreeMerge.MergeResults.HasStructureConflicts | merge.py:393-394 | true exactly when a structure conflict was recorded |
| TreeMerge.MergeResults.HasChunkConflicts | merge.py:396-397 | true exactly when a chunk conflict was recorded |
| TreeMerge.MergeResults.MergeComplete | merge.py:399-400 | complete exactly when there is no structure conflict |
| TreeMerge.MergeResults.NeedsToBeHandMerged | merge.py:402-403 | a path needs hand merging exactly when a chunk conflict has it as this-path |
| TreeMerge.SortConflict | merge.py:469-473 | a conflict goes to the chunk list when its kind is `'chunk'` and to the structure list otherwise |
| TreeMerge.SortConflicts | merge.py:469-473 | after sorting a run of conflicts, the two lists are its chunk and non-chunk subsequences |
| TreeMerge.CollectResults | merge.py:464-476 | after the loop, the structure and chunk lists are the filtered conflicts of all items and the entries are the truthy ones, in order |
| TreeMerge.EntryTable | merge.py:121-125 | the table has exactly the paths of the entries |
| TreeMerge.EntryTableLast | merge.py:121-125 | the last entry at a path wins in the table |
| TreeMerge.StoreEntries | merge.py:121-125 | storing entries overlays them on the table, and the key list holds each table path exactly once |
| TreeMerge.ListEntries | merge.py:129-131 | one entry per path, carrying the table's mode and id |
| TreeMerge.ListSorted | merge.py:127-131 | the listed entries are in strictly increasing path order, come from the table, and cover every table path |
| TreeMerge.UpdatedTreeEntries | merge.py:120-132 | one entry per path of either input, sorted by path; a merged entry overrides this side's entry at the same path |
| TreeMerge.Repo.CommitVirtual | merge.py:135-153 | a virtual commit takes the next fresh id, has the two given parents and the given tree, and is stamped with the clock's time for that id; nothing else changes |
| TreeMerge.Repo.RemoveCommits | merge.py:517-526 | removing the virtual commits deletes exactly those commits, and their commit-to-tree links, and nothing else |
| TreeMerge.ShapedCommit | merge.py:135-153 | adding a virtual commit keeps the graph closed and every id below the next free id |
| TreeMerge.ExtendsCommit | merge.py:135-153 | adding a virtual commit keeps the original commits unchanged and records the new one |
| TreeMerge.GrownCommit | merge.py:135-153 | a virtual commit extends the grown repository by one commit |
| TreeMerge.GrownRemoved | merge.py:517-526 | removing all virtual commits restores the original graph and trees |
| TreeMerge.CollectVirtual | merge.py:196-202 | the virtual merge is blocked exactly when a structure or `'ni'` conflict is yielded, not by chunk conflicts; otherwise it keeps the truthy entries |
| TreeMerge.ConflictsOfPrefix | merge.py:196-202 | the conflicts of a prefix of the items are a prefix of all the conflicts |
| TreeMerge.PrefixConflicts | merge.py:196-202 | a blocking conflict found in a prefix is one of all the conflicts |
| TreeMerge.MergeIntoOf | merge.py:191-212 | merging `b1` and `b2` against a base adds at most one commit and changes no existing one; a base it returns is a new commit whose parents are `b1` and `b2` |
| TreeMerge.MergeIntoRule | merge.py:191-212 | the merge against a base gives -1 exactly when the tree walk yields a structure or `'ni'` conflict; it raises the walk's exception exactly when the walk raises before any such conflict; otherwise it commits `b1`'s tree overlaid with the truthy merged entries, with parents `b1` and `b2`, under the next fresh id; only a success adds a commit |
| TreeMerge.VirtualThisUnchanged | merge.py:196-206 | when `b1` did not change the base tree, the virtual merge is clean and commits `b1`'s tree overlaid with all of `b2`'s changes |
| TreeMerge.VirtualBaseOf | merge.py:172-212 | a virtual base run adds only new commits to the store and changes none; a base it returns is a new commit whose parents are `b1` and `b2` |
| TreeMerge.VirtualBaseNone | merge.py:173-175 | with no LCA, `lcas_commits.pop(0)` raises and nothing is committed |
| TreeMerge.SingleLcaVirtual | merge.py:172-212 | with a single LCA, the virtual base is `b1` and `b2` merged against that LCA, with no fold |
| TreeMerge.VirtualBaseFoundOf | merge.py:174-212 | once the LCAs are found, the run adds only new commits; a base it returns is a new commit with parents `b1` and `b2` |
| TreeMerge.FoldThenMergeOf | merge.py:175-212 | folding the LCAs newest first and then merging `b1` and `b2` against the fold adds only new commits; a base it returns is a new commit with parents `b1` and `b2` |
| TreeMerge.FoldOf | merge.py:160-168 | folding the rest into the base adds only new commits; a successful fold over a non-empty rest returns a new commit, and an empty rest returns the base unchanged |
| TreeMerge.FoldLastParent | merge.py:160-168 | a fold that gives a base ends on a virtual commit whose second parent is the last LCA folded in |
| TreeMerge.PlanVirtual | merge.py:191-206 | the outcome of the tree merge in a virtual-base step is the `VirtualPlan` definition: blocked, raised, or the merged tree |
| TreeMerge.CommitMerged | merge.py:206-212 | committing the merged tree returns the next fresh id, appends it to the virtual commits, and the store is that one `AddCommit` |
| TreeMerge.MergeIntoVirtual | merge.py:191-212 | the method runs `MergeIntoOf`: it returns that result, leaves that store, and appends exactly the commits it made |
| TreeMerge.FoldBases | merge.py:160-168 | the loop runs `FoldOf`: it returns that result, leaves that store, and appends exactly the commits it made |
| TreeMerge.VirtualBaseForLcas | merge.py:156-169 | `_create_virtual_merge_base_for_lcas` runs `FoldOf` over the newest-first LCAs: the first is the starting base and the rest are folded in |
| TreeMerge.VirtualBaseInternal | merge.py:172-212 | `_create_virtual_merge_base_internal` runs `VirtualBaseOf`, with the recursion limit reached when the fuel is spent |
| TreeMerge.VirtualBaseFound | merge.py:174-212 | the internal helper after `find_merge_base` runs `VirtualBaseFoundOf` of the LCAs it was given |
| TreeMerge.FoldThenMerge | merge.py:175-212 | folding the newest-first LCAs and then merging runs `FoldThenMergeOf` |
| TreeMerge.ToStage | merge.py:485-494 | no path to stage is in the hand-merge set |
| TreeMerge.ToStageMembers | merge.py:485-494 | a path is staged exactly when some updated entry has it and it is not in the hand-merge set |
| TreeMerge.ConflictRecordsLayout | merge.py:497-511 | each chunk conflict writes three index records, base at stage 1, this at stage 2 and other at stage 3, in order |
| TreeMerge.PlanStaging | merge.py:485-511 | the staging plan is the non-hand-merged entries plus the three-stage records of the chunk conflicts |
| TreeMerge.SelectBase | merge.py:426-453 | the base-choosing part of `merge` runs `ChosenBase`; the LCAs are `find_merge_base` of the two commits, common ancestors sorted by stamp, which cover every common ancestor when the graph is acyclic and no commit has a negative time (the walk uses `min_stamp=0` and skips older parents) |
| TreeMerge.FromLcasOf | merge.py:441-453 | the base taken from found LCAs adds only new commits, and without an exception it is a commit of the resulting store |
| TreeMerge.FromLcasRule | merge.py:441-453 | an old commit as base is the newest LCA; a new base or an exception needs several LCAs and a folding strategy; a single LCA is the base with nothing made |
| TreeMerge.ChosenBase | merge.py:426-453 | choosing the base adds only new commits, and without an exception the base is a commit of the resulting store |
| TreeMerge.ChosenBaseRule | merge.py:426-453 | the base is the newest LCA, a new virtual commit when several LCAs are folded under an ort-family strategy, or, with no LCA, a new commit of the empty tree with the two commits as parents and no exception |
| TreeMerge.PairLcas | merge.py:422-426 | the LCAs are `find_merge_base` of the two commits: common ancestors sorted by stamp, which cover every common ancestor when the graph is acyclic and no commit has a negative time (the walk uses `min_stamp=0` and skips older parents) |
| TreeMerge.BaseFromLcas | merge.py:441-453 | the method runs `FromLcasOf`: base, store, virtual commits and exception are that definition's |
| TreeMerge.EmptyTreeBase | merge.py:430-436 | no LCA gives the next fresh id as base, a commit of the empty tree with the two commits as parents, and records it as the only virtual commit |
| TreeMerge.FinishMerge | merge.py:478-511 | a tree id (this tree overlaid with the kept entries) and a staging plan are produced exactly when the merge is complete; the conflict lists and entries are untouched |
| TreeMerge.MergeAgainst | merge.py:455-526 | the exception is exactly the tree walk's; without one, every conflict is sorted into its list, every truthy entry is kept, a tree id and plan are produced exactly when complete, and every virtual commit is removed |
| TreeMerge.Merge | merge.py:406-528 | a commit list that is not a pair gives one structure conflict and nothing else; otherwise the LCAs are common ancestors sorted by stamp, covering every common ancestor when the graph is acyclic and no commit has a negative time (the walk uses `min_stamp=0` and skips older parents); the base and exception are those of `ChosenBase` and then of the tree walk, and without an exception the results are recorded and the repository is restored |
| TreeMerge.MergePair | merge.py:422-528 | for two commits: the LCAs are `find_merge_base`'s, the outcome is `MergeOutcome`, and a merge that does not raise records its results and restores the repository |
| TreeMergeAddl.Blob | merge_addl.py:66-73 | a blob is read exactly when its id is present |
| TreeMergeAddl.ModeRule | merge_addl.py:75-82 | the mode rule succeeds exactly when three-way merge of the modes has an answer, and raises `NotImplementedError` otherwise |
| TreeMergeAddl.ModeRuleMatchesMerge | merge_addl.py:75-82 | the mode rule agrees with the one in merge.py wherever it does not raise |
| TreeMergeAddl.MergeEntry | merge_addl.py:57-82 | with no file merger it raises on `other_entry.old`; a result is an entry at the new path; with a merger and all three ids it does not fail |
| TreeMergeAddl.Step | merge_addl.py:105-181 | a decision yields nothing exactly when it is a skip; unsupported pairs and types raise `NotImplementedError` |
| TreeMergeAddl.MergeTreeFrom | merge_addl.py:85-181 | at most one value per change of the other side |
| TreeMergeAddl.MergeTree | merge_addl.py:85-106 | `merge_tree` keys this side's changes by old and by new path: at most one value per change of the other side, nothing when the other side changed nothing, and a run that does not raise met only change pairs and types the table handles |
| TreeMergeAddl.MergeTreeSharedChanges | merge_addl.py:106-108 | identical changes on both sides yield nothing |
| TreeMergeAddl.MergeTreeThisUnchanged | merge_addl.py:109-173 | when this side changed nothing, other's changes are applied in order |
| TreeMergeAddl.ConflictsIn | merge_addl.py:234-235 | the conflicts kept are exactly the conflicts yielded |
| TreeMergeAddl.Merge | merge_addl.py:190-246 | a commit list that is not a pair raises on unpacking; no LCA leaves `merge_base` unbound; otherwise the oldest LCA is the base and the result is the yielded conflicts, in order, unless the merge raised |
| TreeMergeAddl.MergeOnBase | merge_addl.py:220-246 | no LCA leaves `merge_base` unbound and raises; otherwise the base is the oldest LCA and the result is the tree walk's exception or the conflicts it yielded, in order |
| TreeMergeAddl.CollectConflicts | merge_addl.py:227-246 | the loop collects the conflicts in the order they were yielded |
| Diff3.MatchMap | diff3merge.py:183-194 | the match map is strictly increasing, its keys lie within the ancestor's counted lines and its values within the other file's |
| Diff3.KeepOnlyIdentity | diff3merge.py:183-194 | a diff that keeps every line counts the same lines on both sides and matches each line to itself |
| Diff3.Matches | diff3merge.py:174-195 | the counting loop over the tag stream builds exactly the match map |
| Diff3.ResolveChunk | diff3merge.py:286-315 | three equal texts or one side changed resolves without conflict to the changed side; both sides equal gives alice's text; a conflict happens iff all three differ and the strategy is not an ours/theirs variant, and then the text is the conflict block |
| Diff3.ConflictBlock | diff3merge.py:308-315 | the conflict block is alice's marker, alice's text, the ancestor's marker, the ancestor's text, the separator, bob's text and bob's marker, each recoverable at its offset |
| Diff3.ResolveSwapped | diff3merge.py:291-315 | swapping alice and bob and the ours/theirs strategy gives the same conflict verdict and, without a conflict, the same text |
| Diff3.NoConflictsForSideStrategies | diff3merge.py:301-304 | ours and theirs strategies never record a conflict |
| Diff3.Resolved | diff3merge.py:286-315 | over a run of chunks: ours/theirs strategies record no conflict; an unchanged side gives the other side's text; each chunk one side left alone resolves to the other side's text |
| Diff3.UnchangedAlice | diff3merge.py:291-296 | when alice changed no chunk, the merged text is bob's text with no conflict |
| Diff3.UnchangedBob | diff3merge.py:291-298 | when bob changed no chunk, the merged text is alice's text with no conflict |
| Diff3.PiecesAppend | diff3merge.py:286-315 | one more chunk adds its texts, its resolution and at most its conflict to the totals |
| Diff3.AnchoredAhead | diff3merge.py:252-257 | a line matched at the cursor keeps the match map ahead of the previous cursor |
| Diff3.Merge3Way.constructor | diff3merge.py:99-131 | the match maps are built from the tag streams and the cursors and buffers start empty |
| Diff3.Merge3Way.EmitKeepsInv | diff3merge.py:317-322 | emitting a chunk keeps the cursor invariant and chains the chunk to the previous ones |
| Diff3.Merge3Way.FinalKeepsInv | diff3merge.py:324-328 | the final chunk keeps the invariant and ends the merge |
| Diff3.Merge3Way.ChainedAppend | diff3merge.py:317-322 | a chunk starting where the previous ones ended extends the chain to its end |
| Diff3.Merge3Way.ChainedCovers | diff3merge.py:286-322 | chained chunks cover exactly the lines of each file up to the cursors |
| Diff3.Merge3Way.GetConflicts | diff3merge.py:133-139 | returns the conflict ranges of the chunks written so far |
| Diff3.Merge3Way.Inbounds | diff3merge.py:242-250 | offset `i` is in bounds exactly when it is within the longest remaining part of the three files |
| Diff3.Merge3Way.IsMatch | diff3merge.py:252-257 | a line matched at offset `i` is a chunk boundary the match map supports, and with an increasing map every later matched ancestor line lands after it |
| Diff3.Merge3Way.MismatchFrom | diff3merge.py:242-268 | the offset found is at least the start, inside one of the files, and not matched on both sides |
| Diff3.Merge3Way.MismatchFromAligned | diff3merge.py:242-268 | every offset before the one found is matched on both sides; when none is found, every in-bounds offset is |
| Diff3.Merge3Way.NextCommon | diff3merge.py:270-278 | the line found lies between the start and one past the ancestor's end, and when inside the ancestor both sides match it |
| Diff3.Merge3Way.NextCommonSkips | diff3merge.py:270-278 | no ancestor line passed over is matched on both sides |
| Diff3.Merge3Way.FindNextMismatch | diff3merge.py:259-268 | returns the smallest in-bounds offset `i >= 1` at which a side fails to match, or nothing when every in-bounds offset matches |
| Diff3.Merge3Way.FindNextMatch | diff3merge.py:270-284 | returns `ov > on` with no common match before it; `ov` is within the ancestor exactly when both maps have it, and then `av`/`bv` are its matches |
| Diff3.Merge3Way.Round | diff3merge.py:227-240 | one round of the chunk loop from cursors `c` cuts a chunk starting at `c`; the final chunk runs one past the end of every file; any other ends at the new cursors, which advance |
| Diff3.Merge3Way.RoundFinal | diff3merge.py:228-231 | with no mismatch left, the round cuts the final chunk |
| Diff3.Merge3Way.RoundStable | diff3merge.py:239-240 | a first mismatch at offset `i > 1` cuts the `i - 1` matching lines on all three files and moves the cursors past them |
| Diff3.Merge3Way.RoundUnstable | diff3merge.py:232-238 | a mismatch right at the cursors cuts up to the next line both sides match, when both of its matches are non-zero, and otherwise cuts the final chunk |
| Diff3.Merge3Way.RoundsPaced | diff3merge.py:227-240 | in the list of rounds from `c`, each round is the one at the cursors where it starts, only the last is final, and each next round starts where the previous ended |
| Diff3.Merge3Way.RoundsAliceAligned | diff3merge.py:227-240 | when alice equals the ancestor line for line, every chunk cut has the same ancestor and alice ranges |
| Diff3.Merge3Way.RoundsBobAligned | diff3merge.py:227-240 | when bob equals the ancestor line for line, every chunk cut has the same ancestor and bob ranges |
| Diff3.Merge3Way.WriteChunk | diff3merge.py:286-315 | appends the chunk's resolution, and its ranges when conflicted; cursors are untouched |
| Diff3.Merge3Way.EmitChunk | diff3merge.py:317-322 | writes the chunk up to `o-1`/`a-1`/`b-1` and moves the cursors there |
| Diff3.Merge3Way.EmitFinalChunk | diff3merge.py:324-328 | writes the remaining lines and finishes, leaving the cursors |
| Diff3.Merge3Way.Advance | diff3merge.py:227-240 | one iteration finishes or strictly advances the cursors |
| Diff3.Merge3Way.EmitStable | diff3merge.py:239-240 | a matching run before a mismatch at offset `i` is emitted as one chunk and every cursor advances by `i - 1` |
| Diff3.Merge3Way.EmitUnstable | diff3merge.py:232-238 | the merge finishes exactly when the next line both sides match is missing or matched at line 0; otherwise the cursors move to just before it |
| Diff3.Merge3Way.GenerateChunks | diff3merge.py:222-240 | the chunk loop ends with the merge finished and the invariant kept |
| Diff3.Merge3Way.Merged | diff3merge.py:222-240 | once the loop finishes, the chunks cut are exactly the rounds from the start and together cover each file exactly |
| Diff3.Merge3Way.Merge | diff3merge.py:330-334 | the chunks cut are exactly the rounds of the chunk loop from cursors 0; the output is the concatenation of their resolutions and the conflicts are the conflicted ones; the chunks together cover each file exactly; ours/theirs strategies record no conflict; a side whose diff keeps every line, or that is unchanged in every chunk, yields the other side's text without conflict |
| IndexChanges.EntryChange | index_addl.py:39-51 | a name the lookup cannot find is removed; a found name is reported as modified exactly when its id or mode differs or unchanged entries are wanted |
| IndexChanges.EntryChanges | index_addl.py:39-51 | at most one change per index entry |
| IndexChanges.Found | index_addl.py:39-49 | the found names are exactly the index names the lookup finds |
| IndexChanges.IndexPass | index_addl.py:39-51 | the index loop yields at most one change per entry, only removes names from `other_names`, and only names the lookup finds; the only exception it raises is `set.remove` of an absent name |
| IndexChanges.IndexPassSpec | index_addl.py:39-51 | the index pass raises exactly when a found index name is not among the working-copy names; otherwise it yields each entry's change in order and leaves the names no found entry consumed |
| IndexChanges.IndexItemsIndexed | index_addl.py:39-51 | every change of the index pass names an index path |
| IndexChanges.TailNoop | index_addl.py:39-51 | nothing after the first raise contributes |
| IndexChanges.IndexLoop | index_addl.py:39-51 | the loop over the index computes the index pass |
| IndexChanges.UntrackedLoop | index_addl.py:53-60 | the untracked names that the lookup finds are reported as added, each once |
| IndexChanges.UntrackedStep | index_addl.py:53-60 | visiting one more untracked name adds its change exactly when the lookup finds it |
| IndexChanges.ChangesFromWorkingdir | index_addl.py:23-60 | the index-derived changes come first and unchanged; after a raise nothing else is yielded; otherwise the untracked names follow |

## Left out

- Object-store I/O is represented by the parameters listed above: reading
  commits, trees and blobs, `tree_changes`, hashing and `add_object`.
  Lookups of commits missing from the store are excluded by preconditions.
- Rename detection is left out. `tree_changes` is an input, so the rename
  detector is inside it.
- `create_and_store_merged_tree` (merge.py:76-117) is left out. Building and
  hashing the nested tree objects is a single `treeId` function of the entry
  list.
- Working-directory and index writes are left out (merge.py:484-512 beyond the
  staging plan, and merge_addl.py:237-244): `build_file_from_blob`,
  `ensure_dir_exists`, `repo.stage` and `index.set_merge_conflict`/`write`.
  The commit times written into the conflict index records are left out
  too.
  The plan of what is staged is modelled; the writes are not. In
  merge_addl.py a deletion record would reach `object_store[None]` in that
  loop and raise, and the model does not capture that.
- The conflict message strings and all `print` output are left out.
- The diff algorithms (`myers_diff`, `HistogramDiffer`, `difflib.ndiff`) are
  foreign. Their tag streams are inputs to `Diff3.Matches`. The `diff_type`
  dispatch and `splitlines` are left out: the constructor takes the line
  lists and tag streams directly.
- `generate_common_ancestor`, the `do_file_merge_*` wrappers (including the
  `if not ancestor == 0` test in `do_file_merge_ndiff`) and `main`
  (diff3merge.py:23-91, 337-375) are left out. The tree merge takes the file
  merger as a parameter.
- Diff3.Merge3Way.Merge: the model requires a fresh instance. Calling
  `merge()` twice in Python would append the chunks again.
- TreeMerge.VirtualBaseInternal: Python's recursion limit is represented by a
  `fuel` parameter. Running out gives the `RecursionDepth` failure rather
  than a specific depth.
- TreeMergeAddl.Merge: the chunk-conflict list returned by the file merger is
  only printed in merge_addl.py, so the model's file merger returns only the
  merged text.
- IndexChanges.ChangesFromWorkingdir: Python set iteration order is not
  fixed. The untracked tail is specified as a set of changes
  (`UntrackedOf`), each name once, in an unspecified order.
- IndexChanges.IndexPassSpec: it assumes the index holds each name once, as
  a git index at stage 0 does.
- Graph.CanFastForward: it is tied to the LCA walk cut at `c1`'s stamp and
  implies ancestry. The converse, that every ancestor `c1` of `c2` is
  found, is not stated: the cut drops every commit older than `c1`, so a
  path from `c2` down to `c1` through such a commit is never followed.
- Graph.SortByStamp: the sort is written to be stable, as Python's
  is, but the model proves only that it orders by stamp and is a
  permutation.
- Graph.FindLcas: redundancy of one candidate against another is modelled
  through the DNC flags as written. The model proves that every common
  ancestor lies at or below a returned commit, but not that no returned
  commit lies below another.
- Graph.FindLcas: completeness is proved only for acyclic graphs in which no
  commit is older than `min_stamp`; otherwise the stamp cut-off can stop the
  walk early, and the model states only soundness.
- Graph.FindMergeBase: the same condition (acyclic, no negative commit time,
  since `min_stamp=0`) guards coverage in Graph.PairCovers,
  Graph.FindOctopusBase, Graph.OctopusFold, Graph.ExtendBases,
  TreeMerge.PairLcas, TreeMerge.SelectBase and TreeMerge.Merge; without it
  only soundness is stated.
- TreeMerge.Repo.CommitVirtual: Dulwich hashes the commit object to get its
  id. The model hands out fresh ids in order instead, so two virtual commits
  with the same tree, parents and time are distinct commits here, where
  Dulwich would store one object.
- porcelain_addl.py, patch_addl.py and the driver and test scripts are not
  part of this model. They are I/O wrappers over Dulwich.
