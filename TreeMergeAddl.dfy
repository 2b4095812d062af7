/** The older tree merge of merge_addl.py: the same decision table as
    merge.py, but a conflict is yielded on its own, unsupported cases and
    mode clashes raise, and the merge base is the oldest LCA. */
module TreeMergeAddl {
  import opened Common
  import opened Graph
  import opened TreeTypes
  import TreeMerge

  /** `MergeConflict(this_entry, other_entry, base_entry, message)`; the
      message text is not modelled. */
  datatype MergeConflict = MergeConflict(thisEntry: Party, otherEntry: Entry, baseEntry: Entry)

  /** What `merge_tree` yields: an updated entry or a conflict. */
  datatype Yielded = Updated(entry: Entry) | Conflicted(conflict: MergeConflict)

  /** `file_merger(this, other, base)`: the merged text (its conflict list is
      only printed). */
  type FileMerger = (Bytes, Bytes, Bytes) -> Bytes

  /** The answers of the object store and of `tree_changes`. */
  datatype Store = Store(
    content: ObjectId -> Bytes,
    blobId: Bytes -> ObjectId,
    treeChanges: (ObjectId, ObjectId) -> seq<TreeChange>)

  function Blob(store: Store, sha: Option<ObjectId>): (r: Result<Bytes>)
    ensures r.Ok? <==> sha.Some?
  {
    if sha.None? then Err(MissingObject) else Ok(store.content(sha.value))
  }

  /** The mode rule of merge_addl.py's `_merge_entry`: other's mode if this
      side kept the base's or already has other's, this side's if only it
      changed, and `NotImplementedError` when all three differ. */
  function ModeRule(thisMode: Option<Mode>, otherMode: Option<Mode>, baseMode: Option<Mode>): (r: Result<Option<Mode>>)
    ensures r.Ok? <==> Merge3(baseMode, thisMode, otherMode).Some?
    ensures r.Ok? ==> Merge3(baseMode, thisMode, otherMode) == Some(r.value)
    ensures r.Err? ==> r.failure == NotImplementedRaised
  {
    if thisMode == baseMode || thisMode == otherMode then Ok(otherMode)
    else if baseMode != otherMode then Err(NotImplementedRaised)
    else Ok(thisMode)
  }

  /** The two files' mode rules agree wherever this one does not raise, and
      this one raises exactly where merge.py reports a 'not implemented'
      conflict. */
  lemma ModeRuleMatchesMerge(thisMode: Option<Mode>, otherMode: Option<Mode>, baseMode: Option<Mode>)
    ensures ModeRule(thisMode, otherMode, baseMode).Ok? <==> TreeMerge.ModeRule(thisMode, otherMode, baseMode).Some?
    ensures ModeRule(thisMode, otherMode, baseMode).Ok? ==>
              TreeMerge.ModeRule(thisMode, otherMode, baseMode) == Some(ModeRule(thisMode, otherMode, baseMode).value)
  {
  }

  /** `_merge_entry`: with no file merger it raises while building its
      conflict (`other_entry.old`); otherwise the merged text becomes a new
      blob at `newPath` with the mode rule's mode. There is no short cut for
      equal ids and no binary rule. */
  function MergeEntry(newPath: Option<Path>, store: Store, t: Entry, o: Entry, b: Entry, fm: Option<FileMerger>): (r: Result<Yielded>)
    ensures fm.None? ==> r == Err(NoOldAttribute)
    ensures r.Ok? ==> && r.value.Updated? && r.value.entry.path == newPath
                      && Merge3(b.mode, t.mode, o.mode) == Some(r.value.entry.mode)
    ensures fm.Some? && t.sha.Some? && o.sha.Some? && b.sha.Some? ==>
              (r.Ok? <==> Merge3(b.mode, t.mode, o.mode).Some?)
  {
    if fm.None? then Err(NoOldAttribute)
    else
      match (Blob(store, t.sha), Blob(store, o.sha), Blob(store, b.sha))
      case (Ok(tc), Ok(oc), Ok(bc)) =>
        var merged := fm.value(tc, oc, bc);
        (match ModeRule(t.mode, o.mode, b.mode)
         case Ok(mode) => Ok(Updated(Entry(newPath, mode, Some(store.blobId(merged)))))
         case Err(f) => Err(f))
      case _ => Err(MissingObject)
  }

  /** What the generator does for one decision of the table. */
  function Step(store: Store, fm: Option<FileMerger>, d: Decision): (r: Result<Option<Yielded>>)
    ensures r.Ok? && r.value.None? <==> d.Skip?
    ensures d.UnsupportedPair? || d.UnsupportedType? ==> r == Err(NotImplementedRaised)
  {
    match d
    case Skip => Ok(None)
    case TakeOther(e) => Ok(Some(Updated(e)))
    case Conflict(mine, theirs, base, _) => Ok(Some(Conflicted(MergeConflict(mine, theirs, base))))
    case DeletePath(p) => Ok(Some(Updated(Entry(p, None, None))))
    case MergeBoth(p, t, o, b) =>
      (match MergeEntry(p, store, t, o, b, fm)
       case Ok(y) => Ok(Some(y))
       case Err(f) => Err(f))
    case _ => Err(NotImplementedRaised)
  }

  /** `merge_tree(store, this_tree, other_tree, common_tree, ..., file_merger)`
      given the two change lists from the common tree. */
  function MergeTree(store: Store, thisChanges: seq<TreeChange>, otherChanges: seq<TreeChange>, fm: Option<FileMerger>): (r: Stream<Yielded>)
    ensures |r.items| <= |otherChanges|
    ensures otherChanges == [] ==> r == Stream([], None)
    ensures r.failure.None? ==>
              forall k :: 0 <= k < |otherChanges| ==>
                var d := Classify(ByOldPath(thisChanges), ByNewPath(thisChanges), otherChanges[k]);
                !d.UnsupportedPair? && !d.UnsupportedType?
  {
    MergeTreeFrom(store, ByOldPath(thisChanges), ByNewPath(thisChanges), otherChanges, fm)
  }

  /** The generator resumed at `others`. A run that finishes met no change
      pair outside the table. */
  function MergeTreeFrom(store: Store, byOld: map<Option<Path>, TreeChange>, byNew: map<Option<Path>, TreeChange>,
                         others: seq<TreeChange>, fm: Option<FileMerger>): (r: Stream<Yielded>)
    ensures |r.items| <= |others|
    ensures r.failure.None? ==>
              forall k :: 0 <= k < |others| ==>
                var d := Classify(byOld, byNew, others[k]); !d.UnsupportedPair? && !d.UnsupportedType?
    decreases |others|
  {
    if others == [] then Stream([], None)
    else
      match Step(store, fm, Classify(byOld, byNew, others[0]))
      case Err(f) => Stream([], Some(f))
      case Ok(None) => MergeTreeFrom(store, byOld, byNew, others[1..], fm)
      case Ok(Some(y)) =>
        var rest := MergeTreeFrom(store, byOld, byNew, others[1..], fm);
        Stream([y] + rest.items, rest.failure)
  }

  /** Changes shared with this side (the same record under the same old
      path) yield nothing. */
  lemma {:induction false} MergeTreeSharedChanges(store: Store, byOld: map<Option<Path>, TreeChange>,
                                                   byNew: map<Option<Path>, TreeChange>, others: seq<TreeChange>,
                                                   fm: Option<FileMerger>)
    requires forall k :: 0 <= k < |others| ==> others[k].oldEntry.path in byOld && byOld[others[k].oldEntry.path] == others[k]
    ensures MergeTreeFrom(store, byOld, byNew, others, fm) == Stream([], None)
    decreases |others|
  {
    if others != [] {
      MergeTreeSharedChanges(store, byOld, byNew, others[1..], fm);
    }
  }

  /** When this side changed nothing, other's changes come out one entry
      each, in order, without conflicts. */
  lemma {:induction false} MergeTreeThisUnchanged(store: Store, others: seq<TreeChange>, fm: Option<FileMerger>)
    requires forall k :: 0 <= k < |others| ==> others[k].kind != Unchanged
    ensures MergeTreeFrom(store, map[], map[], others, fm)
            == Stream(seq(|others|, k requires 0 <= k < |others| => Updated(TreeMerge.Applied(others[k]).0)), None)
    decreases |others|
  {
    if others != [] {
      OtherOnly(map[], map[], others[0]);
      MergeTreeThisUnchanged(store, others[1..], fm);
    }
  }

  /** The conflicts among the yielded values, in order. */
  function ConflictsIn(ys: seq<Yielded>): (r: seq<MergeConflict>)
    ensures |r| <= |ys|
    ensures forall c :: c in r <==> Conflicted(c) in ys
  {
    if ys == [] then []
    else
      var last := ys[|ys| - 1];
      ConflictsIn(ys[..|ys| - 1]) + (if last.Conflicted? then [last.conflict] else [])
  }

  /** `merge(repo, commit_ids, rename_detector, file_merger)`: the LCAs of
      all the ids are found first; the oldest one is the base; then the ids
      are unpacked into exactly two commits, and the conflicts yielded by
      the tree merge are returned in order. With no LCA the base is never
      bound and reading it raises. */
  method Merge(g: CommitGraph, treeOf: map<CommitId, ObjectId>, store: Store, ids: seq<CommitId>, fm: Option<FileMerger>)
    returns (r: Result<seq<MergeConflict>>, ghost lcas: seq<CommitId>)
    requires Closed(g) && treeOf.Keys == g.parents.Keys
    requires forall c :: c in ids ==> c in g.parents
    ensures |ids| != 2 ==> r == Err(UnpackMismatch)
    ensures forall c :: c in lcas ==> c in g.parents
    ensures |ids| == 2 ==> forall c :: c in lcas ==> IsAncestor(g, c, ids[0]) && IsAncestor(g, c, ids[1])
    ensures forall i, j :: 0 <= i < j < |lcas| ==> g.stamp[lcas[i]] <= g.stamp[lcas[j]]
    ensures lcas == MergeBaseOf(g, ids)
    ensures |ids| == 2 && Acyclic(g) && AllAbove(g, 0) ==> CoversAll(g, ids, lcas)
    ensures |ids| == 2 && Acyclic(g) && AllAbove(g, 0) && (exists x :: AncestorOfAll(g, x, ids)) ==> lcas != []
    ensures |ids| == 2 && lcas == [] ==> r == Err(UnboundMergeBase)
    ensures |ids| == 2 && lcas != [] ==>
              var s := MergeTree(store, store.treeChanges(treeOf[lcas[0]], treeOf[ids[0]]),
                                 store.treeChanges(treeOf[lcas[0]], treeOf[ids[1]]), fm);
              r == (if s.failure.Some? then Err(s.failure.value) else Ok(ConflictsIn(s.items)))
  {
    var found := FindMergeBase(g, ids);
    lcas := found;
    if |ids| != 2 {
      return Err(UnpackMismatch), lcas;
    }
    PairCovers(g, ids, lcas);
    r := MergeOnBase(treeOf, store, ids, found, fm);
  }

  /** The rest of `merge` once the two commits and their LCAs are known:
      with no LCA the base is unbound; otherwise the conflicts of the tree
      merge against the oldest LCA, in order. */
  method MergeOnBase(treeOf: map<CommitId, ObjectId>, store: Store, ids: seq<CommitId>, found: seq<CommitId>,
                     fm: Option<FileMerger>)
    returns (r: Result<seq<MergeConflict>>)
    requires |ids| == 2 && (forall c :: c in ids ==> c in treeOf) && forall c :: c in found ==> c in treeOf
    ensures found == [] ==> r == Err(UnboundMergeBase)
    ensures found != [] ==>
              var s := MergeTree(store, store.treeChanges(treeOf[found[0]], treeOf[ids[0]]),
                                 store.treeChanges(treeOf[found[0]], treeOf[ids[1]]), fm);
              r == (if s.failure.Some? then Err(s.failure.value) else Ok(ConflictsIn(s.items)))
  {
    if found == [] {
      return Err(UnboundMergeBase);
    }
    var base := found[0];
    var stream := MergeTree(store, store.treeChanges(treeOf[base], treeOf[ids[0]]),
                            store.treeChanges(treeOf[base], treeOf[ids[1]]), fm);
    if stream.failure.Some? {
      return Err(stream.failure.value);
    }
    var conflicts := CollectConflicts(stream.items);
    return Ok(conflicts);
  }

  /** The `for` loop of `merge` that keeps the conflicts among the values
      the tree merge yields. */
  method CollectConflicts(ys: seq<Yielded>) returns (conflicts: seq<MergeConflict>)
    ensures conflicts == ConflictsIn(ys)
  {
    conflicts := [];
    var i := 0;
    while i < |ys|
      invariant 0 <= i <= |ys|
      invariant conflicts == ConflictsIn(ys[..i])
    {
      assert ys[..i + 1][..i] == ys[..i];
      if ys[i].Conflicted? {
        conflicts := conflicts + [ys[i].conflict];
      }
      i := i + 1;
    }
    assert ys[..i] == ys;
  }
}
