/** The tree merge of merge.py: three-way merge of one entry, the
    `merge_tree` generator over the other side's changes, the results
    collector, the overlay that builds a merged tree listing, the recursive
    virtual merge base and the top-level `merge`. */
module TreeMerge {
  import opened Common
  import opened Graph
  import opened TreeTypes

  datatype ConflictKind = StructureKind | ChunkKind | NotImplementedKind

  /** `MergeConflict(conflict_type, this_entry, other_entry, base_entry, message)`;
      the message text is not modelled. */
  datatype MergeConflict = MergeConflict(kind: ConflictKind, thisEntry: Party, otherEntry: Party, baseEntry: Party)

  /** Structure and not-implemented conflicts block a merge; chunk conflicts
      are left in the file for a person to resolve. */
  predicate Blocking(c: MergeConflict) { c.kind != ChunkKind }

  /** `file_merger(this, other, base, strategy)`: merged text and conflict ranges. */
  type FileMerger = (Bytes, Bytes, Bytes, Strategy) -> (Bytes, seq<ConflictRanges>)

  /** `MergeOptions(file_merger, rename_detector, strategy)`; the rename
      detector is never consulted by this code. */
  datatype MergeOptions = MergeOptions(fileMerger: Option<FileMerger>, strategy: Strategy)

  /** The answers of the object store and of the library helpers. */
  datatype Env = Env(
    content: ObjectId -> Bytes,                             // raw bytes of a blob
    isBinary: Bytes -> bool,                                // `is_binary`
    blobId: Bytes -> ObjectId,                              // id of `Blob.from_string(text)`
    treeChanges: (ObjectId, ObjectId) -> seq<TreeChange>,   // `tree_changes(store, old, new)`
    tree: ObjectId -> Tree,                                 // a stored tree with its subtrees
    treeId: seq<Entry> -> ObjectId)                         // `create_and_store_merged_tree`

  /** The commit time `_create_virtual_tree_commit` reads from the system
      clock, given for each id a virtual commit can take; ids are handed
      out in the order the commits are made, so successive virtual commits
      may carry different, later times. */
  type Clock = CommitId -> int

  /** A chunk conflict names an entry on each of the three sides. */
  predicate ChunkShaped(c: MergeConflict)
  {
    c.thisEntry.AtEntry? && c.otherEntry.AtEntry? && c.baseEntry.AtEntry?
  }

  /** One value yielded by `merge_tree`: an entry and its conflicts. */
  type Item = (Entry, seq<MergeConflict>)

  /** Either one blocking conflict beside `NO_ENTRY`, or only chunk conflicts,
      each naming an entry on every side. */
  predicate WellFormedItem(it: Item)
  {
    || (it.0 == NoEntry && |it.1| == 1 && Blocking(it.1[0]))
    || (forall k :: 0 <= k < |it.1| ==> it.1[k].kind == ChunkKind && ChunkShaped(it.1[k]))
  }

  function Blob(env: Env, sha: Option<ObjectId>): (r: Result<Bytes>)
    ensures r.Ok? <==> sha.Some?
  {
    if sha.None? then Err(MissingObject) else Ok(env.content(sha.value))
  }

  /** The mode rule of `_merge_entry`: this side's mode if only this side
      changed it, other's otherwise, and no result (a 'not implemented'
      conflict) when both changed it differently. */
  function ModeRule(thisMode: Option<Mode>, otherMode: Option<Mode>, baseMode: Option<Mode>): (r: Option<Option<Mode>>)
    ensures r == Merge3(baseMode, thisMode, otherMode)
  {
    if thisMode == baseMode || thisMode == otherMode then Some(otherMode)
    else if baseMode != otherMode then None
    else Some(thisMode)
  }

  /** Binary content: identical content keeps this entry; different content
      keeps this entry under ort-ours, other's under ort-theirs, and is a
      structure conflict under any other strategy. */
  function BinaryRule(strategy: Strategy, t: Entry, o: Entry, b: Entry, differ: bool): (r: Item)
    ensures WellFormedItem(r)
    ensures r.1 == [] ==> r.0 == t || r.0 == o
    ensures !differ ==> r == (t, [])
    ensures differ && strategy == OrtOurs ==> r == (t, [])
    ensures differ && strategy == OrtTheirs ==> r == (o, [])
    ensures differ && strategy !in {OrtOurs, OrtTheirs} ==> r == (NoEntry, [MergeConflict(StructureKind, AtEntry(t), AtEntry(o), AtEntry(b))])
  {
    if !differ then (Entry(t.path, t.mode, t.sha), [])
    else if strategy == OrtOurs then (Entry(t.path, t.mode, t.sha), [])
    else if strategy == OrtTheirs then (Entry(o.path, o.mode, o.sha), [])
    else (NoEntry, [MergeConflict(StructureKind, AtEntry(t), AtEntry(o), AtEntry(b))])
  }

  /** Text content: one chunk conflict per conflicting range, a new blob for
      the merged text, and the mode rule; when the mode rule has no answer the
      chunk conflicts are dropped and a single 'not implemented' conflict is
      reported instead. */
  function TextRule(env: Env, newPath: Option<Path>, t: Entry, o: Entry, b: Entry,
                    merged: Bytes, ranges: seq<ConflictRanges>): (r: Item)
    ensures WellFormedItem(r)
    ensures ModeRule(t.mode, o.mode, b.mode).None? ==>
              r == (NoEntry, [MergeConflict(NotImplementedKind, AtEntry(t), AtEntry(o), AtEntry(b))])
    ensures ModeRule(t.mode, o.mode, b.mode).Some? ==>
              && r.0 == Entry(newPath, ModeRule(t.mode, o.mode, b.mode).value, Some(env.blobId(merged)))
              && |r.1| == |ranges|
              && forall k :: 0 <= k < |r.1| ==> r.1[k] == MergeConflict(ChunkKind, AtEntry(t), AtEntry(o), AtEntry(b))
  {
    var chunks := seq(|ranges|, _ => MergeConflict(ChunkKind, AtEntry(t), AtEntry(o), AtEntry(b)));
    var blob := env.blobId(merged);
    if t.mode == b.mode || t.mode == o.mode then (Entry(newPath, o.mode, Some(blob)), chunks)
    else if b.mode != o.mode then (NoEntry, [MergeConflict(NotImplementedKind, AtEntry(t), AtEntry(o), AtEntry(b))])
    else (Entry(newPath, t.mode, Some(blob)), chunks)
  }

  /** `_merge_entry`: identical ids need no merge; without a file merger the
      conflict it tries to build reads `other_entry.old`, which a tree entry
      lacks, and raises; otherwise binary content follows the binary rule and
      text is merged by the file merger. */
  function MergeEntry(opts: MergeOptions, env: Env, newPath: Option<Path>, t: Entry, o: Entry, b: Entry): (r: Result<Item>)
    ensures t.sha == o.sha ==> r == Ok((t, []))
    ensures t.sha != o.sha && opts.fileMerger.None? ==> r == Err(NoOldAttribute)
    ensures r.Ok? ==> WellFormedItem(r.value)
    ensures t.sha != o.sha && opts.fileMerger.Some? && t.sha.Some? && o.sha.Some? && b.sha.Some? ==> r.Ok?
  {
    if t.sha == o.sha then Ok((t, []))
    else if opts.fileMerger.None? then Err(NoOldAttribute)
    else
      match (Blob(env, t.sha), Blob(env, o.sha), Blob(env, b.sha))
      case (Ok(tc), Ok(oc), Ok(bc)) =>
        if env.isBinary(tc) || env.isBinary(oc) || env.isBinary(bc) then
          Ok(BinaryRule(opts.strategy, t, o, b, tc != oc))
        else
          var (merged, ranges) := opts.fileMerger.value(tc, oc, bc, opts.strategy);
          Ok(TextRule(env, newPath, t, o, b, merged, ranges))
      case _ => Err(MissingObject)
  }

  /** What the generator does for one decision: nothing, one item, or raise.
      A 'not implemented' case reports the generator's `this_entry`, which is
      whatever the last add branch stored there, and raises if no add branch
      has run yet. */
  function Yield(opts: MergeOptions, env: Env, d: Decision, lastThis: Option<TreeChange>): (r: Result<Option<Item>>)
    ensures r.Ok? && r.value.Some? ==> WellFormedItem(r.value.value)
    ensures r.Ok? && r.value.None? <==> d.Skip?
  {
    match d
    case Skip => Ok(None)
    case TakeOther(e) => Ok(Some((e, [])))
    case Conflict(mine, theirs, base, _) =>
      Ok(Some((NoEntry, [MergeConflict(StructureKind, mine, AtEntry(theirs), AtEntry(base))])))
    case DeletePath(p) => Ok(Some((Entry(p, None, None), [])))
    case MergeBoth(p, t, o, b) =>
      (match MergeEntry(opts, env, p, t, o, b)
       case Ok(it) => Ok(Some(it))
       case Err(f) => Err(f))
    case _ =>
      if lastThis.None? then Err(UnboundThisEntry)
      else Ok(Some((NoEntry, [MergeConflict(NotImplementedKind, AtChange(lastThis.value), Absent, Absent)])))
  }

  /** `merge_tree(store, moptions, this_tree, other_tree, common_tree)` given
      the two change lists from the common tree. */
  function MergeTree(opts: MergeOptions, env: Env, thisChanges: seq<TreeChange>, otherChanges: seq<TreeChange>): (r: Stream<Item>)
    ensures |r.items| <= |otherChanges|
    ensures forall k :: 0 <= k < |r.items| ==> WellFormedItem(r.items[k])
    ensures otherChanges == [] ==> r == Stream([], None)
  {
    MergeTreeFrom(opts, env, ByOldPath(thisChanges), ByNewPath(thisChanges), otherChanges, None)
  }

  /** The generator resumed at `others` with `this_entry` holding `lastThis`. */
  function MergeTreeFrom(opts: MergeOptions, env: Env, byOld: map<Option<Path>, TreeChange>,
                         byNew: map<Option<Path>, TreeChange>, others: seq<TreeChange>,
                         lastThis: Option<TreeChange>): (r: Stream<Item>)
    ensures |r.items| <= |others|
    ensures forall k :: 0 <= k < |r.items| ==> WellFormedItem(r.items[k])
    decreases |others|
  {
    if others == [] then Stream([], None)
    else
      var d := Classify(byOld, byNew, others[0]);
      var nextThis := if d.Conflict? && d.why == BothAdded then Some(d.mine.c) else lastThis;
      match Yield(opts, env, d, lastThis)
      case Err(f) => Stream([], Some(f))
      case Ok(None) => MergeTreeFrom(opts, env, byOld, byNew, others[1..], nextThis)
      case Ok(Some(it)) =>
        var rest := MergeTreeFrom(opts, env, byOld, byNew, others[1..], nextThis);
        Stream([it] + rest.items, rest.failure)
  }

  /** What a change of the other side does to a tree that this side left alone. */
  function Applied(oc: TreeChange): Item
  {
    if oc.kind == Delete then (Entry(oc.oldEntry.path, None, None), []) else (oc.newEntry, [])
  }

  /** When this side changed nothing, the merge yields other's changes, one
      item each and in order, with no conflict and without raising. */
  lemma {:induction false} MergeTreeThisUnchanged(opts: MergeOptions, env: Env, others: seq<TreeChange>, lastThis: Option<TreeChange>)
    requires forall k :: 0 <= k < |others| ==> others[k].kind != Unchanged
    ensures MergeTreeFrom(opts, env, map[], map[], others, lastThis) == Stream(seq(|others|, k requires 0 <= k < |others| => Applied(others[k])), None)
    decreases |others|
  {
    if others != [] {
      OtherOnly(map[], map[], others[0]);
      MergeTreeThisUnchanged(opts, env, others[1..], lastThis);
    }
  }

  /** A change the other side shares with this side (the same record under
      the same old path) yields nothing, so a side merged with a copy of its
      own changes yields nothing when no two of them share an old path. */
  lemma {:induction false} MergeTreeSharedChanges(opts: MergeOptions, env: Env, byOld: map<Option<Path>, TreeChange>,
                                                   byNew: map<Option<Path>, TreeChange>, others: seq<TreeChange>,
                                                   lastThis: Option<TreeChange>)
    requires forall k :: 0 <= k < |others| ==> others[k].oldEntry.path in byOld && byOld[others[k].oldEntry.path] == others[k]
    ensures MergeTreeFrom(opts, env, byOld, byNew, others, lastThis) == Stream([], None)
    decreases |others|
  {
    if others != [] {
      MergeTreeSharedChanges(opts, env, byOld, byNew, others[1..], lastThis);
    }
  }

  /** Both sides adding the same two files is a structure conflict: an add is
      keyed under the empty old path, so only the last add of this side can
      match, and the add branch then compares a change record with a tree
      entry, which never match. */
  lemma BothSidesAddSameFiles(opts: MergeOptions, env: Env, a1: Entry, a2: Entry)
    requires a1.path != a2.path
    ensures var adds := [TreeChange(Add, NoEntry, a1), TreeChange(Add, NoEntry, a2)];
            var r := MergeTree(opts, env, adds, adds);
            r.failure.None? && |r.items| == 1
            && r.items[0] == (NoEntry, [MergeConflict(StructureKind, AtChange(adds[0]), AtEntry(a1), AtEntry(NoEntry))])
  {
    var adds := [TreeChange(Add, NoEntry, a1), TreeChange(Add, NoEntry, a2)];
    var byOld := ByOldPath(adds);
    var byNew := ByNewPath(adds);
    assert adds[..1] == [adds[0]] && adds[..1][..0] == [];
    assert ByOldPath(adds[..1]) == map[None := adds[0]];
    assert byOld == map[None := adds[1]];
    assert ByNewPath(adds[..1]) == map[a1.path := adds[0]];
    assert byNew == map[a1.path := adds[0], a2.path := adds[1]];
    var d0 := Classify(byOld, byNew, adds[0]);
    assert d0 == Conflict(AtChange(adds[0]), a1, NoEntry, BothAdded);
    var d1 := Classify(byOld, byNew, adds[1]);
    assert d1 == Skip;
    assert adds[1..][1..] == [];
    assert adds[1..][0] == adds[1];
    var tail := MergeTreeFrom(opts, env, byOld, byNew, adds[1..], Some(adds[0]));
    assert tail == MergeTreeFrom(opts, env, byOld, byNew, [], Some(adds[0]));
  }

  /** The concatenated conflicts of a run of items. */
  function ConflictsOf(items: seq<Item>): (r: seq<MergeConflict>)
    ensures (forall k :: 0 <= k < |items| ==> WellFormedItem(items[k])) ==>
              forall j :: 0 <= j < |r| && !Blocking(r[j]) ==> ChunkShaped(r[j])
  {
    if items == [] then [] else ConflictsOf(items[..|items| - 1]) + items[|items| - 1].1
  }

  /** The entries of a run of items that are truthy in every field. */
  function MaterialEntries(items: seq<Item>): (r: seq<Entry>)
    ensures forall k :: 0 <= k < |r| ==> Truthy(r[k])
  {
    if items == [] then []
    else MaterialEntries(items[..|items| - 1]) + (if Truthy(items[|items| - 1].0) then [items[|items| - 1].0] else [])
  }

  function IsChunk(c: MergeConflict): bool { !Blocking(c) }

  function IsBlocking(c: MergeConflict): bool { Blocking(c) }

  /** The paths a person has to merge by hand: this side's path of every chunk conflict. */
  function HandMergePaths(cs: seq<MergeConflict>): (r: set<Option<Path>>)
    requires forall k :: 0 <= k < |cs| ==> cs[k].thisEntry.AtEntry?
    ensures forall p :: p in r <==> exists k :: 0 <= k < |cs| && cs[k].thisEntry.e.path == p
  {
    set k | 0 <= k < |cs| :: cs[k].thisEntry.e.path
  }

  /** `MergeResults`. */
  class MergeResults {
    var structureConflicts: seq<MergeConflict>
    var chunkConflicts: seq<MergeConflict>
    var handMergeSet: set<Option<Path>>
    var updatedTreeEntries: seq<Entry>
    var treeId: Option<ObjectId>

    /** Every chunk conflict names an entry on each side, and the hand-merge
        set is exactly the paths of this side's entries. */
    ghost predicate Valid()
      reads this
    {
      && (forall k :: 0 <= k < |chunkConflicts| ==> ChunkShaped(chunkConflicts[k]))
      && handMergeSet == HandMergePaths(chunkConflicts)
    }

    constructor ()
      ensures Valid()
      ensures structureConflicts == [] && chunkConflicts == [] && handMergeSet == {}
      ensures updatedTreeEntries == [] && treeId == None
    {
      structureConflicts := [];
      chunkConflicts := [];
      handMergeSet := {};
      updatedTreeEntries := [];
      treeId := None;
    }

    method AddStructureConflict(c: MergeConflict)
      requires Valid()
      modifies this
      ensures Valid()
      ensures structureConflicts == old(structureConflicts) + [c]
      ensures chunkConflicts == old(chunkConflicts) && handMergeSet == old(handMergeSet)
      ensures updatedTreeEntries == old(updatedTreeEntries) && treeId == old(treeId)
    {
      structureConflicts := structureConflicts + [c];
    }

    /** `add_chunk_conflict`: records the conflict and marks its path on this
        side for merging by hand. */
    method AddChunkConflict(c: MergeConflict)
      requires Valid() && ChunkShaped(c)
      modifies this
      ensures Valid()
      ensures chunkConflicts == old(chunkConflicts) + [c]
      ensures handMergeSet == old(handMergeSet) + {c.thisEntry.e.path}
      ensures structureConflicts == old(structureConflicts)
      ensures updatedTreeEntries == old(updatedTreeEntries) && treeId == old(treeId)
    {
      chunkConflicts := chunkConflicts + [c];
      handMergeSet := handMergeSet + {c.thisEntry.e.path};
      assert HandMergePaths(chunkConflicts) == HandMergePaths(old(chunkConflicts)) + {c.thisEntry.e.path} by {
        forall p | p in HandMergePaths(chunkConflicts)
          ensures p in HandMergePaths(old(chunkConflicts)) + {c.thisEntry.e.path}
        {
          var k :| 0 <= k < |chunkConflicts| && chunkConflicts[k].thisEntry.e.path == p;
          if k < |old(chunkConflicts)| {
            assert old(chunkConflicts)[k] == chunkConflicts[k];
          }
        }
        forall p | p in HandMergePaths(old(chunkConflicts))
          ensures p in HandMergePaths(chunkConflicts)
        {
          var k :| 0 <= k < |old(chunkConflicts)| && old(chunkConflicts)[k].thisEntry.e.path == p;
          assert chunkConflicts[k] == old(chunkConflicts)[k];
        }
        assert chunkConflicts[|chunkConflicts| - 1] == c;
      }
    }

    method AddEntry(e: Entry)
      requires Valid()
      modifies this
      ensures Valid()
      ensures updatedTreeEntries == old(updatedTreeEntries) + [e]
      ensures structureConflicts == old(structureConflicts) && chunkConflicts == old(chunkConflicts)
      ensures handMergeSet == old(handMergeSet) && treeId == old(treeId)
    {
      updatedTreeEntries := updatedTreeEntries + [e];
    }

    function HasStructureConflicts(): (b: bool)
      reads this
      ensures b <==> structureConflicts != []
    {
      |structureConflicts| > 0
    }

    function HasChunkConflicts(): (b: bool)
      reads this
      ensures b <==> chunkConflicts != []
    {
      |chunkConflicts| > 0
    }

    /** A merge is complete when no structure conflict was recorded; chunk
        conflicts do not prevent completion. */
    function MergeComplete(): (b: bool)
      reads this
      ensures b <==> !HasStructureConflicts()
    {
      |structureConflicts| == 0
    }

    /** A path needs merging by hand exactly when some chunk conflict names it
        on this side. */
    function NeedsToBeHandMerged(p: Option<Path>): (b: bool)
      reads this
      requires Valid()
      ensures b <==> exists k :: 0 <= k < |chunkConflicts| && chunkConflicts[k].thisEntry.e.path == p
    {
      p in handMergeSet
    }
  }

  /** One conflict sorted into its list. */
  method SortConflict(results: MergeResults, ghost done: seq<MergeConflict>, c: MergeConflict)
    requires results.Valid()
    requires results.structureConflicts == Filter(done, IsBlocking)
    requires results.chunkConflicts == Filter(done, IsChunk)
    requires !Blocking(c) ==> ChunkShaped(c)
    modifies results
    ensures results.Valid()
    ensures results.structureConflicts == Filter(done + [c], IsBlocking)
    ensures results.chunkConflicts == Filter(done + [c], IsChunk)
    ensures results.updatedTreeEntries == old(results.updatedTreeEntries) && results.treeId == old(results.treeId)
  {
    FilterAppend(done, c, IsBlocking);
    FilterAppend(done, c, IsChunk);
    if c.kind == StructureKind || c.kind == NotImplementedKind {
      results.AddStructureConflict(c);
    } else {
      results.AddChunkConflict(c);
    }
  }

  /** The inner loop of `merge`: each conflict of one item goes to the
      structure list if it blocks and to the chunk list otherwise. */
  method SortConflicts(results: MergeResults, ghost done: seq<MergeConflict>, conflicts: seq<MergeConflict>)
    requires results.Valid()
    requires results.structureConflicts == Filter(done, IsBlocking)
    requires results.chunkConflicts == Filter(done, IsChunk)
    requires forall k :: 0 <= k < |conflicts| && !Blocking(conflicts[k]) ==> ChunkShaped(conflicts[k])
    modifies results
    ensures results.Valid()
    ensures results.structureConflicts == Filter(done + conflicts, IsBlocking)
    ensures results.chunkConflicts == Filter(done + conflicts, IsChunk)
    ensures results.updatedTreeEntries == old(results.updatedTreeEntries) && results.treeId == old(results.treeId)
  {
    var j := 0;
    assert done + conflicts[..0] == done;
    while j < |conflicts|
      invariant 0 <= j <= |conflicts|
      invariant results.Valid()
      invariant results.structureConflicts == Filter(done + conflicts[..j], IsBlocking)
      invariant results.chunkConflicts == Filter(done + conflicts[..j], IsChunk)
      invariant results.updatedTreeEntries == old(results.updatedTreeEntries)
      invariant results.treeId == old(results.treeId)
    {
      assert done + conflicts[..j + 1] == (done + conflicts[..j]) + [conflicts[j]];
      SortConflict(results, done + conflicts[..j], conflicts[j]);
      j := j + 1;
    }
    assert conflicts[..j] == conflicts;
  }

  /** The conflicts of `items` sorted into the two lists and the truthy
      entries collected, as the loop of `merge` does. */
  method CollectResults(results: MergeResults, items: seq<Item>)
    requires results.Valid()
    requires results.structureConflicts == [] && results.chunkConflicts == [] && results.updatedTreeEntries == []
    requires forall k :: 0 <= k < |items| ==> WellFormedItem(items[k])
    modifies results
    ensures results.Valid()
    ensures results.structureConflicts == Filter(ConflictsOf(items), IsBlocking)
    ensures results.chunkConflicts == Filter(ConflictsOf(items), IsChunk)
    ensures results.updatedTreeEntries == MaterialEntries(items)
    ensures results.treeId == old(results.treeId)
  {
    var i := 0;
    while i < |items|
      invariant 0 <= i <= |items|
      invariant results.Valid()
      invariant results.structureConflicts == Filter(ConflictsOf(items[..i]), IsBlocking)
      invariant results.chunkConflicts == Filter(ConflictsOf(items[..i]), IsChunk)
      invariant results.updatedTreeEntries == MaterialEntries(items[..i])
      invariant results.treeId == old(results.treeId)
    {
      var (entry, conflicts) := items[i];
      assert items[..i + 1][..i] == items[..i];
      assert ConflictsOf(items[..i + 1]) == ConflictsOf(items[..i]) + conflicts;
      assert WellFormedItem(items[i]);
      SortConflicts(results, ConflictsOf(items[..i]), conflicts);
      if Truthy(entry) {
        results.AddEntry(entry);
      }
      i := i + 1;
    }
    assert items[..i] == items;
  }

  /** The fields of each path of an entry listing, a later entry replacing an
      earlier one with the same path. */
  function EntryTable(es: seq<Entry>): (m: map<Path, (Option<Mode>, Option<ObjectId>)>)
    requires forall k :: 0 <= k < |es| ==> es[k].path.Some?
    ensures forall k :: 0 <= k < |es| ==> es[k].path.value in m
    ensures forall p :: p in m ==> exists k :: 0 <= k < |es| && es[k].path == Some(p)
  {
    if es == [] then map[]
    else
      var last := es[|es| - 1];
      EntryTable(es[..|es| - 1])[last.path.value := (last.mode, last.sha)]
  }

  /** The table holds, for each path, the fields of the last entry with that path. */
  lemma {:induction false} EntryTableLast(es: seq<Entry>, i: nat)
    requires forall k :: 0 <= k < |es| ==> es[k].path.Some?
    requires i < |es| && forall j :: i < j < |es| ==> es[j].path != es[i].path
    ensures EntryTable(es)[es[i].path.value] == (es[i].mode, es[i].sha)
  {
    if i < |es| - 1 {
      EntryTableLast(es[..|es| - 1], i);
    }
  }

  /** The paths of `es` appended to `keys` in the order they are first seen,
      each path once. */
  function AddKeys(keys: seq<Path>, es: seq<Entry>): (r: seq<Path>)
    requires forall k :: 0 <= k < |es| ==> es[k].path.Some?
    ensures forall p :: p in r <==> p in keys || exists k :: 0 <= k < |es| && es[k].path == Some(p)
    ensures (forall a, b :: 0 <= a < b < |keys| ==> keys[a] != keys[b]) ==>
              forall a, b :: 0 <= a < b < |r| ==> r[a] != r[b]
    decreases |es|
  {
    if es == [] then keys
    else
      var next := if es[0].path.value in keys then keys else keys + [es[0].path.value];
      var r := AddKeys(next, es[1..]);
      assert forall p :: (exists k :: 0 <= k < |es[1..]| && es[1..][k].path == Some(p)) ==>
                         exists k :: 0 <= k < |es| && es[k].path == Some(p) by {
        forall p | exists k :: 0 <= k < |es[1..]| && es[1..][k].path == Some(p)
          ensures exists k :: 0 <= k < |es| && es[k].path == Some(p)
        {
          var k :| 0 <= k < |es[1..]| && es[1..][k].path == Some(p);
          assert es[k + 1].path == Some(p);
        }
      }
      assert forall p :: (exists k :: 0 <= k < |es| && es[k].path == Some(p)) ==>
                         p == es[0].path.value || exists k :: 0 <= k < |es[1..]| && es[1..][k].path == Some(p) by {
        forall p | exists k :: 0 <= k < |es| && es[k].path == Some(p)
          ensures p == es[0].path.value || exists k :: 0 <= k < |es[1..]| && es[1..][k].path == Some(p)
        {
          var k :| 0 <= k < |es| && es[k].path == Some(p);
          if k > 0 { assert es[1..][k - 1].path == Some(p); }
        }
      }
      r
  }

  /** One entry per path of `paths`, with the fields the table holds for it. */
  function EntriesAt(table: map<Path, (Option<Mode>, Option<ObjectId>)>, paths: seq<Path>): (r: seq<Entry>)
    requires forall k :: 0 <= k < |paths| ==> paths[k] in table
  {
    seq(|paths|, k requires 0 <= k < |paths| => Entry(Some(paths[k]), table[paths[k]].0, table[paths[k]].1))
  }

  /** Sorting distinct paths orders them strictly and keeps exactly them. */
  lemma SortedKeys(keys: seq<Path>)
    requires forall a, b :: 0 <= a < b < |keys| ==> keys[a] != keys[b]
    ensures StrictlySorted(SortPaths(keys))
    ensures forall p :: p in SortPaths(keys) <==> p in keys
  {
    var paths := SortPaths(keys);
    SortPathsCorrect(keys);
    forall p ensures p in paths <==> p in keys {
      assert p in paths <==> p in multiset(paths);
      assert p in keys <==> p in multiset(keys);
    }
  }

  /** Listing every stored path in sorted order gives each stored path once,
      in strictly increasing order, with its stored fields. */
  lemma EntriesAtSorted(table: map<Path, (Option<Mode>, Option<ObjectId>)>, keys: seq<Path>)
    requires forall p :: p in table <==> p in keys
    requires forall a, b :: 0 <= a < b < |keys| ==> keys[a] != keys[b]
    ensures forall k :: 0 <= k < |SortPaths(keys)| ==> SortPaths(keys)[k] in table
    ensures var merged := EntriesAt(table, SortPaths(keys));
            && (forall k :: 0 <= k < |merged| ==>
                  && merged[k].path.Some?
                  && merged[k].path.value in table
                  && table[merged[k].path.value] == (merged[k].mode, merged[k].sha))
            && (forall i, j :: 0 <= i < j < |merged| ==> LexLess(merged[i].path.value, merged[j].path.value))
            && (forall p :: p in table ==> exists k :: 0 <= k < |merged| && merged[k].path == Some(p))
  {
    var paths := SortPaths(keys);
    SortedKeys(keys);
    assert forall k :: 0 <= k < |paths| ==> paths[k] in table;
    var merged := EntriesAt(table, paths);
    forall p | p in table
      ensures exists k :: 0 <= k < |merged| && merged[k].path == Some(p)
    {
      var k :| 0 <= k < |paths| && paths[k] == p;
      assert merged[k].path == Some(p);
    }
  }

  /** `_updated_tree_entries_with_changes` as a definition: this tree's
      entries overlaid with the updated entries, one entry per path in
      ascending path order. */
  function Overlay(thisEntries: seq<Entry>, updated: seq<Entry>): (merged: seq<Entry>)
    requires forall k :: 0 <= k < |thisEntries| ==> thisEntries[k].path.Some?
    requires forall k :: 0 <= k < |updated| ==> updated[k].path.Some?
    ensures forall k :: 0 <= k < |merged| ==>
              && merged[k].path.Some?
              && merged[k].path.value in EntryTable(thisEntries) + EntryTable(updated)
              && (EntryTable(thisEntries) + EntryTable(updated))[merged[k].path.value] == (merged[k].mode, merged[k].sha)
    ensures forall i, j :: 0 <= i < j < |merged| ==> LexLess(merged[i].path.value, merged[j].path.value)
    ensures forall p :: p in EntryTable(thisEntries) + EntryTable(updated) ==>
              exists k :: 0 <= k < |merged| && merged[k].path == Some(p)
  {
    var table := EntryTable(thisEntries) + EntryTable(updated);
    var keys := AddKeys(AddKeys([], thisEntries), updated);
    EntriesAtSorted(table, keys);
    EntriesAt(table, SortPaths(keys))
  }

  lemma UnionUpdate<K, V>(a: map<K, V>, b: map<K, V>, k: K, v: V)
    ensures a + b[k := v] == (a + b)[k := v]
  {
  }

  /** The first loops of `_updated_tree_entries_with_changes`: each entry's
      fields stored under its path, with the keys kept in insertion order. */
  method StoreEntries(table0: map<Path, (Option<Mode>, Option<ObjectId>)>, keys0: seq<Path>, es: seq<Entry>)
    returns (table: map<Path, (Option<Mode>, Option<ObjectId>)>, keys: seq<Path>)
    requires forall k :: 0 <= k < |es| ==> es[k].path.Some?
    requires forall p :: p in table0 <==> p in keys0
    requires forall a, b :: 0 <= a < b < |keys0| ==> keys0[a] != keys0[b]
    ensures table == table0 + EntryTable(es)
    ensures keys == AddKeys(keys0, es)
    ensures forall p :: p in table <==> p in keys
  {
    table, keys := table0, keys0;
    var i := 0;
    while i < |es|
      invariant 0 <= i <= |es|
      invariant table == table0 + EntryTable(es[..i])
      invariant AddKeys(keys, es[i..]) == AddKeys(keys0, es)
      invariant forall p :: p in table <==> p in keys
    {
      var e := es[i];
      StoreStep(table0, keys0, es, i, table, keys);
      if e.path.value !in table {
        keys := keys + [e.path.value];
      }
      table := table[e.path.value := (e.mode, e.sha)];
      i := i + 1;
    }
    assert es[..i] == es;
  }

  /** One round of `StoreEntries` keeps its invariant. */
  lemma StoreStep(table0: map<Path, (Option<Mode>, Option<ObjectId>)>, keys0: seq<Path>, es: seq<Entry>, i: nat,
                  table: map<Path, (Option<Mode>, Option<ObjectId>)>, keys: seq<Path>)
    requires forall k :: 0 <= k < |es| ==> es[k].path.Some?
    requires i < |es| && table == table0 + EntryTable(es[..i])
    requires AddKeys(keys, es[i..]) == AddKeys(keys0, es)
    requires forall p :: p in table <==> p in keys
    ensures var e := es[i];
            var keys' := if e.path.value in table then keys else keys + [e.path.value];
            var table' := table[e.path.value := (e.mode, e.sha)];
            && table' == table0 + EntryTable(es[..i + 1])
            && AddKeys(keys', es[i + 1..]) == AddKeys(keys0, es)
            && forall p :: p in table' <==> p in keys'
  {
    var e := es[i];
    TableStep(table0, es, i);
    KeysStep(keys, es, i);
    assert e.path.value in table <==> e.path.value in keys;
  }

  lemma TableStep(table0: map<Path, (Option<Mode>, Option<ObjectId>)>, es: seq<Entry>, i: nat)
    requires forall k :: 0 <= k < |es| ==> es[k].path.Some?
    requires i < |es|
    ensures table0 + EntryTable(es[..i + 1]) == (table0 + EntryTable(es[..i]))[es[i].path.value := (es[i].mode, es[i].sha)]
  {
    var e := es[i];
    assert es[..i + 1][..i] == es[..i];
    assert EntryTable(es[..i + 1]) == EntryTable(es[..i])[e.path.value := (e.mode, e.sha)];
    UnionUpdate(table0, EntryTable(es[..i]), e.path.value, (e.mode, e.sha));
  }

  lemma KeysStep(keys: seq<Path>, es: seq<Entry>, i: nat)
    requires forall k :: 0 <= k < |es| ==> es[k].path.Some?
    requires i < |es|
    ensures var p := es[i].path.value;
            AddKeys(if p in keys then keys else keys + [p], es[i + 1..]) == AddKeys(keys, es[i..])
  {
    assert es[i..][0] == es[i] && es[i..][1..] == es[i + 1..];
  }

  /** The last loop of `_updated_tree_entries_with_changes`: one entry per
      path, in the order of `paths`. */
  method ListEntries(table: map<Path, (Option<Mode>, Option<ObjectId>)>, paths: seq<Path>) returns (merged: seq<Entry>)
    requires forall k :: 0 <= k < |paths| ==> paths[k] in table
    ensures merged == EntriesAt(table, paths)
  {
    merged := [];
    var j := 0;
    while j < |paths|
      invariant 0 <= j <= |paths|
      invariant merged == EntriesAt(table, paths[..j])
    {
      merged := merged + [Entry(Some(paths[j]), table[paths[j]].0, table[paths[j]].1)];
      j := j + 1;
    }
    assert paths[..j] == paths;
  }

  /** `_updated_tree_entries_with_changes`: the table built from this tree's
      entries and then the updated ones, listed in sorted path order. */
  method UpdatedTreeEntries(thisEntries: seq<Entry>, updated: seq<Entry>) returns (merged: seq<Entry>)
    requires forall k :: 0 <= k < |thisEntries| ==> thisEntries[k].path.Some?
    requires forall k :: 0 <= k < |updated| ==> updated[k].path.Some?
    ensures merged == Overlay(thisEntries, updated)
  {
    var table, keys := StoreEntries(map[], [], thisEntries);
    assert table == EntryTable(thisEntries);
    table, keys := StoreEntries(table, keys, updated);
    merged := ListSorted(table, keys);
  }

  /** `sorted(...)` over the stored paths, followed by the last loop of
      `_updated_tree_entries_with_changes`. */
  method ListSorted(table: map<Path, (Option<Mode>, Option<ObjectId>)>, keys: seq<Path>) returns (merged: seq<Entry>)
    requires forall p :: p in table <==> p in keys
    requires forall a, b :: 0 <= a < b < |keys| ==> keys[a] != keys[b]
    ensures forall k :: 0 <= k < |SortPaths(keys)| ==> SortPaths(keys)[k] in table
    ensures merged == EntriesAt(table, SortPaths(keys))
  {
    EntriesAtSorted(table, keys);
    merged := ListEntries(table, SortPaths(keys));
  }

  /** The repository: its commit graph, each commit's tree, and the next
      fresh commit id. */
  class Repo {
    var graph: CommitGraph
    var treeOf: map<CommitId, ObjectId>
    var nextId: CommitId

    ghost predicate Valid()
      reads this
    {
      Shaped(graph, treeOf, nextId)
    }

    function State(): Store
      reads this
    {
      Store(graph, treeOf, nextId)
    }

    constructor (g: CommitGraph, trees: map<CommitId, ObjectId>, next: CommitId)
      requires Closed(g) && trees.Keys == g.parents.Keys && forall c :: c in g.parents ==> c < next
      ensures Valid() && graph == g && treeOf == trees && nextId == next
    {
      graph := g;
      treeOf := trees;
      nextId := next;
    }

    /** `_create_virtual_tree_commit`: a new commit of `tree` with parents
        `p1` and `p2`, stamped with the clock's time for its id. */
    method CommitVirtual(tree: ObjectId, p1: CommitId, p2: CommitId, clock: Clock) returns (c: CommitId)
      requires Valid() && p1 in graph.parents && p2 in graph.parents
      modifies this
      ensures Valid()
      ensures c == old(nextId) && c !in old(graph.parents) && nextId == c + 1
      ensures graph == CommitGraph(old(graph.parents)[c := [p1, p2]], old(graph.stamp)[c := clock(c)])
      ensures treeOf == old(treeOf)[c := tree]
    {
      c := nextId;
      graph := CommitGraph(graph.parents[c := [p1, p2]], graph.stamp[c := clock(c)]);
      treeOf := treeOf[c := tree];
      nextId := nextId + 1;
    }

    /** `_remove_loose_object` for each commit of `cs`, in order. */
    method RemoveCommits(cs: seq<CommitId>)
      modifies this
      ensures graph == CommitGraph(old(graph.parents) - Elements(cs), old(graph.stamp) - Elements(cs))
      ensures treeOf == old(treeOf) - Elements(cs)
      ensures nextId == old(nextId)
    {
      var i := 0;
      while i < |cs|
        invariant 0 <= i <= |cs|
        invariant graph == CommitGraph(old(graph.parents) - Elements(cs[..i]), old(graph.stamp) - Elements(cs[..i]))
        invariant treeOf == old(treeOf) - Elements(cs[..i])
        invariant nextId == old(nextId)
      {
        assert Elements(cs[..i + 1]) == Elements(cs[..i]) + {cs[i]} by {
          assert cs[..i + 1] == cs[..i] + [cs[i]];
        }
        graph := CommitGraph(graph.parents - {cs[i]}, graph.stamp - {cs[i]});
        treeOf := treeOf - {cs[i]};
        i := i + 1;
      }
      assert cs[..i] == cs;
    }
  }

  /** A repository's object store: a closed commit graph, a tree for every
      commit, and an id counter above every commit id in use. */
  ghost predicate Shaped(g: CommitGraph, t: map<CommitId, ObjectId>, n: CommitId)
  {
    Closed(g) && t.Keys == g.parents.Keys && forall c :: c in g.parents ==> c < n
  }

  /** `g`/`t` hold `g0`/`t0` (all older than `n0`) unchanged, plus the
      commits `vs`, none of which is older than `n0`. */
  ghost predicate Extends(g0: CommitGraph, t0: map<CommitId, ObjectId>, n0: CommitId,
                          g: CommitGraph, t: map<CommitId, ObjectId>, n: CommitId, vs: seq<CommitId>)
  {
    && n0 <= n
    && (forall c :: c in g0.parents ==> c < n0)
    && g0.stamp.Keys == g0.parents.Keys && t0.Keys == g0.parents.Keys
    && g.parents.Keys == g0.parents.Keys + Elements(vs)
    && (forall c :: c in g0.parents ==> c in g.stamp && c in t)
    && (forall c :: c in g0.parents ==> g.parents[c] == g0.parents[c] && g.stamp[c] == g0.stamp[c] && t[c] == t0[c])
    && (forall v :: v in vs ==> v >= n0)
  }

  /** The graph `g`, trees `t` and id counter `n` are those of a valid
      repository that held `g0`/`t0` (all older than `n0`) plus the virtual
      commits `vs`. */
  ghost predicate Grown(g0: CommitGraph, t0: map<CommitId, ObjectId>, n0: CommitId,
                        g: CommitGraph, t: map<CommitId, ObjectId>, n: CommitId, vs: seq<CommitId>)
  {
    Shaped(g, t, n) && Extends(g0, t0, n0, g, t, n, vs)
  }

  ghost predicate RepoGrown(g0: CommitGraph, t0: map<CommitId, ObjectId>, n0: CommitId, r: Repo, vs: seq<CommitId>)
    reads r
  {
    r.Valid() && Grown(g0, t0, n0, r.graph, r.treeOf, r.nextId, vs)
  }

  lemma GrownStart(g: CommitGraph, t: map<CommitId, ObjectId>, n: CommitId)
    requires Closed(g) && t.Keys == g.parents.Keys && forall c :: c in g.parents ==> c < n
    ensures Grown(g, t, n, g, t, n, [])
  {
  }

  /** A new virtual commit keeps the repository grown from the same start. */
  lemma GrownCommit(g0: CommitGraph, t0: map<CommitId, ObjectId>, n0: CommitId,
                    g: CommitGraph, t: map<CommitId, ObjectId>, n: CommitId, vs: seq<CommitId>,
                    tree: ObjectId, p1: CommitId, p2: CommitId, clock: Clock)
    requires Grown(g0, t0, n0, g, t, n, vs) && p1 in g.parents && p2 in g.parents
    ensures Grown(g0, t0, n0, CommitGraph(g.parents[n := [p1, p2]], g.stamp[n := clock(n)]), t[n := tree], n + 1, vs + [n])
  {
    ShapedCommit(g, t, n, tree, p1, p2, clock);
    ExtendsCommit(g0, t0, n0, g, t, n, vs, tree, p1, p2, clock);
  }

  lemma ShapedCommit(g: CommitGraph, t: map<CommitId, ObjectId>, n: CommitId,
                     tree: ObjectId, p1: CommitId, p2: CommitId, clock: Clock)
    requires Shaped(g, t, n) && p1 in g.parents && p2 in g.parents
    ensures Shaped(CommitGraph(g.parents[n := [p1, p2]], g.stamp[n := clock(n)]), t[n := tree], n + 1)
  {
    var g' := CommitGraph(g.parents[n := [p1, p2]], g.stamp[n := clock(n)]);
    forall c, i | c in g'.parents && 0 <= i < |g'.parents[c]|
      ensures g'.parents[c][i] in g'.parents
    {
      if c != n { assert g'.parents[c] == g.parents[c]; }
    }
  }

  lemma ExtendsCommit(g0: CommitGraph, t0: map<CommitId, ObjectId>, n0: CommitId,
                      g: CommitGraph, t: map<CommitId, ObjectId>, n: CommitId, vs: seq<CommitId>,
                      tree: ObjectId, p1: CommitId, p2: CommitId, clock: Clock)
    requires Shaped(g, t, n) && Extends(g0, t0, n0, g, t, n, vs)
    ensures Extends(g0, t0, n0, CommitGraph(g.parents[n := [p1, p2]], g.stamp[n := clock(n)]), t[n := tree], n + 1, vs + [n])
  {
    assert Elements(vs + [n]) == Elements(vs) + {n};
    assert n !in g0.parents;
  }

  /** Removing every virtual commit gives back the repository it grew from. */
  lemma GrownRemoved(g0: CommitGraph, t0: map<CommitId, ObjectId>, n0: CommitId,
                     g: CommitGraph, t: map<CommitId, ObjectId>, n: CommitId, vs: seq<CommitId>)
    requires Grown(g0, t0, n0, g, t, n, vs)
    ensures CommitGraph(g.parents - Elements(vs), g.stamp - Elements(vs)) == g0
    ensures t - Elements(vs) == t0
  {
    assert forall v :: v in Elements(vs) ==> v !in g0.parents;
    assert g.parents - Elements(vs) == g0.parents;
    assert g.stamp - Elements(vs) == g0.stamp;
    assert t - Elements(vs) == t0;
  }

  /** A snapshot of the repository's commit graph, trees and id counter. */
  datatype Store = Store(graph: CommitGraph, treeOf: map<CommitId, ObjectId>, nextId: CommitId)

  /** Outcome of the virtual-base helpers: a base commit, -1, or an exception. */
  datatype VResult = VOk(base: CommitId) | VFail | VCrash(failure: Failure)

  /** The inner loop of `_create_virtual_merge_base_internal`: fails at the
      first blocking conflict, lets chunk conflicts through, and collects the
      truthy entries. */
  method CollectVirtual(items: seq<Item>) returns (blocked: bool, entries: seq<Entry>)
    ensures blocked <==> HasBlocking(items)
    ensures !blocked ==> entries == MaterialEntries(items)
  {
    entries := [];
    var i := 0;
    while i < |items|
      invariant 0 <= i <= |items|
      invariant forall k :: 0 <= k < |ConflictsOf(items[..i])| ==> !Blocking(ConflictsOf(items[..i])[k])
      invariant entries == MaterialEntries(items[..i])
    {
      var (entry, conflicts) := items[i];
      assert items[..i + 1][..i] == items[..i];
      var j := 0;
      while j < |conflicts|
        invariant 0 <= j <= |conflicts|
        invariant forall k :: 0 <= k < j ==> !Blocking(conflicts[k])
      {
        if conflicts[j].kind == StructureKind || conflicts[j].kind == NotImplementedKind {
          PrefixConflicts(items, i, j);
          return true, entries;
        }
        j := j + 1;
      }
      assert ConflictsOf(items[..i + 1]) == ConflictsOf(items[..i]) + conflicts;
      if Truthy(entry) {
        entries := entries + [entry];
      }
      i := i + 1;
    }
    assert items[..i] == items;
    return false, entries;
  }

  /** A blocking conflict inside item `i` is a blocking conflict of the whole run. */
  lemma PrefixConflicts(items: seq<Item>, i: nat, j: nat)
    requires i < |items| && j < |items[i].1| && Blocking(items[i].1[j])
    ensures exists k :: 0 <= k < |ConflictsOf(items)| && Blocking(ConflictsOf(items)[k])
  {
    ConflictsOfPrefix(items, i + 1);
    assert items[..i + 1][..i] == items[..i];
    var pre := ConflictsOf(items[..i]);
    assert ConflictsOf(items)[|pre| + j] == items[i].1[j];
  }

  lemma {:induction false} ConflictsOfPrefix(items: seq<Item>, n: nat)
    requires n <= |items|
    ensures ConflictsOf(items[..n]) <= ConflictsOf(items)
    decreases |items| - n
  {
    if n < |items| {
      ConflictsOfPrefix(items, n + 1);
      assert items[..n + 1][..n] == items[..n];
    } else {
      assert items[..n] == items;
    }
  }

  /** The items of a merge hold a structure or 'not implemented' conflict. */
  ghost predicate HasBlocking(items: seq<Item>)
  {
    exists k :: 0 <= k < |ConflictsOf(items)| && Blocking(ConflictsOf(items)[k])
  }

  /** The store after `_create_virtual_tree_commit(repo, tree, p1, p2)`: a
      commit under the next fresh id with parents `p1` and `p2`, stamped with
      the clock's time for that id. */
  function AddCommit(s: Store, tree: ObjectId, p1: CommitId, p2: CommitId, clock: Clock): Store
  {
    Store(CommitGraph(s.graph.parents[s.nextId := [p1, p2]], s.graph.stamp[s.nextId := clock(s.nextId)]),
          s.treeOf[s.nextId := tree], s.nextId + 1)
  }

  ghost predicate StoreShaped(s: Store)
  {
    Shaped(s.graph, s.treeOf, s.nextId)
  }

  /** `r` is `s` grown by the virtual commits `added`. */
  ghost predicate StoreGrown(s: Store, r: Store, added: seq<CommitId>)
  {
    Grown(s.graph, s.treeOf, s.nextId, r.graph, r.treeOf, r.nextId, added)
  }

  /** Growth composes. */
  lemma GrownTrans(s0: Store, s1: Store, s2: Store, vs1: seq<CommitId>, vs2: seq<CommitId>)
    requires StoreGrown(s0, s1, vs1) && StoreGrown(s1, s2, vs2)
    ensures StoreGrown(s0, s2, vs1 + vs2)
  {
    assert Elements(vs1 + vs2) == Elements(vs1) + Elements(vs2);
    forall v | v in vs1 + vs2 ensures v >= s0.nextId {
      if v !in vs1 { assert v in vs2; }
    }
  }

  lemma GrownNone(s: Store)
    requires StoreShaped(s)
    ensures StoreGrown(s, s, [])
  {
  }

  lemma GrownAdd(s: Store, tree: ObjectId, p1: CommitId, p2: CommitId, clock: Clock)
    requires StoreShaped(s) && p1 in s.graph.parents && p2 in s.graph.parents
    ensures StoreGrown(s, AddCommit(s, tree, p1, p2, clock), [s.nextId])
  {
    GrownCommit(s.graph, s.treeOf, s.nextId, s.graph, s.treeOf, s.nextId, [], tree, p1, p2, clock);
    assert [] + [s.nextId] == [s.nextId];
  }

  /** What merging `b1` and `b2` against a base comes to in
      `_create_virtual_merge_base_internal`: -1 at a blocking conflict, the
      exception the tree walk raised, or the tree of the merged entries. */
  datatype VPlan = Blocked | Raised(failure: Failure) | Clean(tree: ObjectId)

  ghost function VirtualPlan(opts: MergeOptions, env: Env, b1Tree: ObjectId, b2Tree: ObjectId, baseTree: ObjectId): VPlan
  {
    var stream := MergeTree(opts, env, env.treeChanges(baseTree, b1Tree), env.treeChanges(baseTree, b2Tree));
    if HasBlocking(stream.items) then Blocked
    else if stream.failure.Some? then Raised(stream.failure.value)
    else Clean(env.treeId(Overlay(TreeEntries(env.tree(b1Tree), []), MaterialEntries(stream.items))))
  }

  /** A run of the virtual-base helpers: the result, the store after it, and
      the virtual commits made, in order. */
  type VRun = (VResult, Store, seq<CommitId>)

  /** A call that started with virtual commits `vcommits` ran as `v`: it
      returned `rv`, left the store as `st`, and `vs` is `vcommits` followed
      by the commits it made. */
  ghost predicate Ran(v: VRun, vcommits: seq<CommitId>, rv: VResult, st: Store, vs: seq<CommitId>)
  {
    rv == v.0 && st == v.1 && vs == vcommits + v.2
  }

  /** The second half of `_create_virtual_merge_base_internal` as a
      definition. */
  ghost function MergeIntoOf(opts: MergeOptions, env: Env, s: Store, b1: CommitId, b2: CommitId, base: CommitId, clock: Clock): (r: VRun)
    requires StoreShaped(s) && b1 in s.graph.parents && b2 in s.graph.parents && base in s.graph.parents
    ensures StoreGrown(s, r.1, r.2)
    ensures r.0.VOk? ==> r.0.base in r.1.graph.parents && r.0.base !in s.graph.parents && r.1.graph.parents[r.0.base] == [b1, b2]
  {
    GrownNone(s);
    match VirtualPlan(opts, env, s.treeOf[b1], s.treeOf[b2], s.treeOf[base])
    case Blocked => (VFail, s, [])
    case Raised(f) => (VCrash(f), s, [])
    case Clean(t) =>
      GrownAdd(s, t, b1, b2, clock);
      (VOk(s.nextId), AddCommit(s, t, b1, b2, clock), [s.nextId])
  }

  /** Items that carry no conflict give none. */
  lemma {:induction false} ConflictsOfApplied(others: seq<TreeChange>)
    ensures ConflictsOf(seq(|others|, k requires 0 <= k < |others| => Applied(others[k]))) == []
    decreases |others|
  {
    if others != [] {
      var items := seq(|others|, k requires 0 <= k < |others| => Applied(others[k]));
      var front := others[..|others| - 1];
      assert items[..|items| - 1] == seq(|front|, k requires 0 <= k < |front| => Applied(front[k]));
      ConflictsOfApplied(front);
    }
  }

  /** A virtual merge in which `b1` changed nothing since the base is clean:
      its tree is `b1`'s tree overlaid with other's changes. */
  lemma VirtualThisUnchanged(opts: MergeOptions, env: Env, b1Tree: ObjectId, b2Tree: ObjectId, baseTree: ObjectId)
    requires env.treeChanges(baseTree, b1Tree) == []
    requires var oc := env.treeChanges(baseTree, b2Tree); forall k :: 0 <= k < |oc| ==> oc[k].kind != Unchanged
    ensures var oc := env.treeChanges(baseTree, b2Tree);
            var items := seq(|oc|, k requires 0 <= k < |oc| => Applied(oc[k]));
            VirtualPlan(opts, env, b1Tree, b2Tree, baseTree)
            == Clean(env.treeId(Overlay(TreeEntries(env.tree(b1Tree), []), MaterialEntries(items))))
  {
    var oc := env.treeChanges(baseTree, b2Tree);
    MergeTreeThisUnchanged(opts, env, oc, None);
    ConflictsOfApplied(oc);
  }

  /** `b1` and `b2` merged against `base`: -1 exactly when the tree merge
      records a structure or 'ni' conflict; the walk's exception when it
      raises without one; otherwise a fresh commit, parents `b1` and `b2`,
      of `b1`'s tree overlaid with the kept entries. Only that commit is
      added. */
  lemma MergeIntoRule(opts: MergeOptions, env: Env, s: Store, b1: CommitId, b2: CommitId, base: CommitId, clock: Clock)
    requires StoreShaped(s) && b1 in s.graph.parents && b2 in s.graph.parents && base in s.graph.parents
    ensures var stream := MergeTree(opts, env, env.treeChanges(s.treeOf[base], s.treeOf[b1]),
                                    env.treeChanges(s.treeOf[base], s.treeOf[b2]));
            var m := MergeIntoOf(opts, env, s, b1, b2, base, clock);
            && (m.0 == VFail <==> HasBlocking(stream.items))
            && (m.0.VCrash? <==> !HasBlocking(stream.items) && stream.failure.Some?)
            && (m.0.VCrash? ==> Some(m.0.failure) == stream.failure)
            && (m.0.VOk? ==> m.0.base == s.nextId && m.2 == [s.nextId]
                             && m.1 == AddCommit(s, env.treeId(Overlay(TreeEntries(env.tree(s.treeOf[b1]), []), MaterialEntries(stream.items))),
                                                 b1, b2, clock))
            && (!m.0.VOk? ==> m.1 == s && m.2 == [])
  {
  }

  /** `_create_virtual_merge_base_internal(b1, b2)` as a definition: out of
      `fuel`, the interpreter's recursion limit is hit; with no LCA the pop
      raises; otherwise the LCAs, newest first, are folded into one base and
      `b1` and `b2` are merged against it. */
  ghost function VirtualBaseOf(opts: MergeOptions, env: Env, s: Store, b1: CommitId, b2: CommitId, clock: Clock, fuel: nat): (r: VRun)
    requires StoreShaped(s) && b1 in s.graph.parents && b2 in s.graph.parents
    ensures StoreGrown(s, r.1, r.2)
    ensures r.0.VOk? ==> r.0.base in r.1.graph.parents && r.0.base !in s.graph.parents && r.1.graph.parents[r.0.base] == [b1, b2]
    decreases fuel, 0, 1
  {
    GrownNone(s);
    if fuel == 0 then (VCrash(RecursionDepth), s, [])
    else VirtualBaseFoundOf(opts, env, s, b1, b2, MergeBaseOf(s.graph, [b1, b2]), clock, fuel - 1)
  }

  /** `_create_virtual_merge_base_internal(b1, b2)` once the LCAs `lcas`
      are found: with none the pop raises; otherwise they are folded, newest
      first, into one base and `b1` and `b2` are merged against it, with
      `depth` nested calls left. */
  ghost function VirtualBaseFoundOf(opts: MergeOptions, env: Env, s: Store, b1: CommitId, b2: CommitId,
                                    lcas: seq<CommitId>, clock: Clock, depth: nat): (r: VRun)
    requires StoreShaped(s) && b1 in s.graph.parents && b2 in s.graph.parents
    requires forall c :: c in lcas ==> c in s.graph.parents
    ensures StoreGrown(s, r.1, r.2)
    ensures r.0.VOk? ==> r.0.base in r.1.graph.parents && r.0.base !in s.graph.parents && r.1.graph.parents[r.0.base] == [b1, b2]
    decreases depth, 3
  {
    GrownNone(s);
    if lcas == [] then (VCrash(EmptyPop), s, [])
    else
      ReverseMembers(lcas);
      FoldThenMergeOf(opts, env, s, b1, b2, Reverse(lcas), clock, depth)
  }

  /** With a single LCA, the virtual base is `b1` and `b2` merged against it. */
  lemma SingleLcaVirtual(opts: MergeOptions, env: Env, s: Store, b1: CommitId, b2: CommitId, clock: Clock, fuel: nat, c: CommitId)
    requires StoreShaped(s) && b1 in s.graph.parents && b2 in s.graph.parents
    requires fuel > 0 && MergeBaseOf(s.graph, [b1, b2]) == [c]
    ensures c in s.graph.parents
    ensures VirtualBaseOf(opts, env, s, b1, b2, clock, fuel) == MergeIntoOf(opts, env, s, b1, b2, c, clock)
  {
    assert c in MergeBaseOf(s.graph, [b1, b2]);
    assert Reverse([c]) == [c];
    VirtualBaseUnfold(opts, env, s, b1, b2, clock, fuel, [c]);
    MergeAgainstOne(opts, env, s, b1, b2, c, clock, fuel - 1);
  }

  /** With fuel left and LCAs found, the virtual base is the LCAs folded
      newest first and `b1` and `b2` merged against the result. */
  lemma VirtualBaseUnfold(opts: MergeOptions, env: Env, s: Store, b1: CommitId, b2: CommitId, clock: Clock, fuel: nat,
                          lcas: seq<CommitId>)
    requires StoreShaped(s) && b1 in s.graph.parents && b2 in s.graph.parents
    requires fuel > 0 && lcas == MergeBaseOf(s.graph, [b1, b2]) && lcas != []
    requires forall c :: c in Reverse(lcas) ==> c in s.graph.parents
    ensures VirtualBaseOf(opts, env, s, b1, b2, clock, fuel) == FoldThenMergeOf(opts, env, s, b1, b2, Reverse(lcas), clock, fuel - 1)
  {
  }

  /** Folding a single commit gives that commit, so the merge is against it. */
  lemma MergeAgainstOne(opts: MergeOptions, env: Env, s: Store, b1: CommitId, b2: CommitId, c: CommitId, clock: Clock, fuel: nat)
    requires StoreShaped(s) && b1 in s.graph.parents && b2 in s.graph.parents && c in s.graph.parents
    ensures FoldThenMergeOf(opts, env, s, b1, b2, [c], clock, fuel) == MergeIntoOf(opts, env, s, b1, b2, c, clock)
  {
    assert [c][1..] == [];
    assert FoldOf(opts, env, s, c, [], clock, fuel) == (VOk(c), s, []);
    var m := MergeIntoOf(opts, env, s, b1, b2, c, clock);
    assert [] + m.2 == m.2;
  }

  /** The LCAs, newest first, folded into one base, and `b1` and `b2`
      merged against it. */
  ghost function FoldThenMergeOf(opts: MergeOptions, env: Env, s: Store, b1: CommitId, b2: CommitId,
                                 newestFirst: seq<CommitId>, clock: Clock, fuel: nat): (r: VRun)
    requires StoreShaped(s) && b1 in s.graph.parents && b2 in s.graph.parents
    requires newestFirst != [] && forall c :: c in newestFirst ==> c in s.graph.parents
    ensures StoreGrown(s, r.1, r.2)
    ensures r.0.VOk? ==> r.0.base in r.1.graph.parents && r.0.base !in s.graph.parents && r.1.graph.parents[r.0.base] == [b1, b2]
    decreases fuel, 2
  {
    var f := FoldOf(opts, env, s, newestFirst[0], newestFirst[1..], clock, fuel);
    if !f.0.VOk? then f
    else
      var m := MergeIntoOf(opts, env, f.1, b1, b2, f.0.base, clock);
      GrownTrans(s, f.1, m.1, f.2, m.2);
      (m.0, m.1, f.2 + m.2)
  }

  /** A run that gives a base ends on a virtual commit whose second parent
      is `last`. */
  ghost predicate EndsOn(r: VRun, last: CommitId)
  {
    r.0.VOk? ==> r.0.base in r.1.graph.parents && |r.1.graph.parents[r.0.base]| == 2 && r.1.graph.parents[r.0.base][1] == last
  }

  /** A fold that gives a base ends on a virtual commit whose second parent
      is the last commit folded in. */
  lemma {:induction false} FoldLastParent(opts: MergeOptions, env: Env, s: Store, base: CommitId, rest: seq<CommitId>,
                                          clock: Clock, fuel: nat, last: CommitId)
    requires StoreShaped(s) && base in s.graph.parents && forall c :: c in rest ==> c in s.graph.parents
    requires rest != [] && last == rest[|rest| - 1]
    ensures EndsOn(FoldOf(opts, env, s, base, rest, clock, fuel), last)
    decreases |rest|
  {
    var more, s1, base1 := FoldEndsStep(opts, env, s, base, rest, clock, fuel, last);
    if more {
      FoldLastParent(opts, env, s1, base1, rest[1..], clock, fuel, last);
    }
  }

  /** One step of `FoldLastParent`: a fold that stops at its first merge
      ends on that merge; otherwise (`more`) it ends where the fold of the
      rest from store `s1` and base `base1` ends. */
  lemma FoldEndsStep(opts: MergeOptions, env: Env, s: Store, base: CommitId, rest: seq<CommitId>, clock: Clock, fuel: nat,
                     last: CommitId)
    returns (more: bool, s1: Store, base1: CommitId)
    requires StoreShaped(s) && base in s.graph.parents && forall c :: c in rest ==> c in s.graph.parents
    requires rest != [] && last == rest[|rest| - 1]
    ensures !more ==> EndsOn(FoldOf(opts, env, s, base, rest, clock, fuel), last)
    ensures more ==> && |rest| > 1 && rest[1..] != [] && last == rest[1..][|rest[1..]| - 1]
                     && StoreShaped(s1) && base1 in s1.graph.parents
                     && (forall c :: c in rest[1..] ==> c in s1.graph.parents)
                     && (EndsOn(FoldOf(opts, env, s1, base1, rest[1..], clock, fuel), last) ==>
                           EndsOn(FoldOf(opts, env, s, base, rest, clock, fuel), last))
  {
    var v := VirtualBaseOf(opts, env, s, base, rest[0], clock, fuel);
    more, s1, base1 := false, s, base;
    if !v.0.VOk? {
      FoldEndsStop(opts, env, s, base, rest, clock, fuel, last);
    } else if |rest| == 1 {
      FoldEndsLast(opts, env, s, base, rest, clock, fuel);
    } else {
      FoldEndsMore(opts, env, s, base, rest, clock, fuel, last);
      more, s1, base1 := true, v.1, v.0.base;
    }
  }

  /** A fold whose first merge fails ends on that failure. */
  lemma FoldEndsStop(opts: MergeOptions, env: Env, s: Store, base: CommitId, rest: seq<CommitId>, clock: Clock, fuel: nat,
                     last: CommitId)
    requires StoreShaped(s) && base in s.graph.parents && forall c :: c in rest ==> c in s.graph.parents
    requires rest != [] && !VirtualBaseOf(opts, env, s, base, rest[0], clock, fuel).0.VOk?
    ensures EndsOn(FoldOf(opts, env, s, base, rest, clock, fuel), last)
  {
  }

  /** A fold of one commit ends on its merge with that commit. */
  lemma FoldEndsLast(opts: MergeOptions, env: Env, s: Store, base: CommitId, rest: seq<CommitId>, clock: Clock, fuel: nat)
    requires StoreShaped(s) && base in s.graph.parents && forall c :: c in rest ==> c in s.graph.parents
    requires |rest| == 1
    ensures EndsOn(FoldOf(opts, env, s, base, rest, clock, fuel), rest[0])
  {
    assert rest[1..] == [];
  }

  /** A fold that goes on past its first merge ends where the rest of it
      ends. */
  lemma FoldEndsMore(opts: MergeOptions, env: Env, s: Store, base: CommitId, rest: seq<CommitId>, clock: Clock, fuel: nat,
                     last: CommitId)
    requires StoreShaped(s) && base in s.graph.parents && forall c :: c in rest ==> c in s.graph.parents
    requires rest != [] && last == rest[|rest| - 1]
    requires VirtualBaseOf(opts, env, s, base, rest[0], clock, fuel).0.VOk? && |rest| > 1
    ensures var v := VirtualBaseOf(opts, env, s, base, rest[0], clock, fuel);
            && rest[1..] != [] && last == rest[1..][|rest[1..]| - 1]
            && StoreShaped(v.1) && v.0.base in v.1.graph.parents
            && (forall c :: c in rest[1..] ==> c in v.1.graph.parents)
            && (EndsOn(FoldOf(opts, env, v.1, v.0.base, rest[1..], clock, fuel), last) ==>
                  EndsOn(FoldOf(opts, env, s, base, rest, clock, fuel), last))
  {
    FoldUnfold(opts, env, s, base, rest, clock, fuel);
    assert rest[1..][|rest| - 2] == last;
  }

  lemma FoldUnfold(opts: MergeOptions, env: Env, s: Store, base: CommitId, rest: seq<CommitId>, clock: Clock, fuel: nat)
    requires StoreShaped(s) && base in s.graph.parents && forall c :: c in rest ==> c in s.graph.parents
    requires rest != []
    ensures var v := VirtualBaseOf(opts, env, s, base, rest[0], clock, fuel);
            var f := FoldOf(opts, env, s, base, rest, clock, fuel);
            && (!v.0.VOk? ==> f == v)
            && (v.0.VOk? ==> && StoreShaped(v.1) && v.0.base in v.1.graph.parents
                             && (forall c :: c in rest[1..] ==> c in v.1.graph.parents)
                             && var w := FoldOf(opts, env, v.1, v.0.base, rest[1..], clock, fuel);
                                f.0 == w.0 && f.1 == w.1)
  {
  }

  /** The loop shared by `_create_virtual_merge_base_for_lcas` and
      `_create_virtual_merge_base_internal` as a definition: `base` merged in
      turn with each commit of `rest`, stopping at the first -1 or exception. */
  ghost function FoldOf(opts: MergeOptions, env: Env, s: Store, base: CommitId, rest: seq<CommitId>, clock: Clock, fuel: nat): (r: VRun)
    requires StoreShaped(s) && base in s.graph.parents && forall c :: c in rest ==> c in s.graph.parents
    ensures StoreGrown(s, r.1, r.2)
    ensures r.0.VOk? ==> r.0.base in r.1.graph.parents
    ensures r.0.VOk? && rest != [] ==> r.0.base !in s.graph.parents
    decreases fuel, 1, |rest|
  {
    GrownNone(s);
    if rest == [] then (VOk(base), s, [])
    else
      var v := VirtualBaseOf(opts, env, s, base, rest[0], clock, fuel);
      if !v.0.VOk? then v
      else
        var f := FoldOf(opts, env, v.1, v.0.base, rest[1..], clock, fuel);
        GrownTrans(s, v.1, f.1, v.2, f.2);
        (f.0, f.1, v.2 + f.2)
  }

  /** The loop shared by `_create_virtual_merge_base_for_lcas` and
      `_create_virtual_merge_base_internal`: `base` merged in turn with each
      commit of `rest`, stopping at the first -1 or exception. */
  method FoldBases(repo: Repo, opts: MergeOptions, env: Env, base: CommitId, rest: seq<CommitId>,
                   clock: Clock, fuel: nat, vcommits: seq<CommitId>)
    returns (rv: VResult, vs: seq<CommitId>)
    requires StoreShaped(repo.State())
    requires base in repo.graph.parents && forall c :: c in rest ==> c in repo.graph.parents
    modifies repo
    ensures Ran(FoldOf(opts, env, old(repo.State()), base, rest, clock, fuel), vcommits, rv, repo.State(), vs)
    decreases fuel, 1
  {
    ghost var s0 := repo.State();
    var cur := base;
    vs := vcommits;
    var i := 0;
    assert rest[0..] == rest;
    while i < |rest|
      invariant 0 <= i <= |rest|
      invariant FoldStep(opts, env, s0, base, rest, clock, fuel, repo.State(), cur, i, vcommits, vs)
    {
      ghost var s := repo.State();
      ghost var before := vs;
      var nrv;
      nrv, vs := VirtualBaseInternal(repo, opts, env, cur, rest[i], clock, fuel, vs);
      FoldAdvance(opts, env, s0, base, rest, clock, fuel, s, cur, i, vcommits, before);
      if !nrv.VOk? {
        return nrv, vs;
      }
      cur := nrv.base;
      i := i + 1;
    }
    assert rest[i..] == [];
    rv := VOk(cur);
  }

  /** After `i` rounds of the fold, from store `s` holding `cur`: what is
      left of the fold gives what the whole fold gives. */
  ghost predicate FoldStep(opts: MergeOptions, env: Env, s0: Store, base: CommitId, rest: seq<CommitId>,
                           clock: Clock, fuel: nat, s: Store, cur: CommitId, i: nat,
                           vcommits: seq<CommitId>, vs: seq<CommitId>)
  {
    && StoreShaped(s0) && base in s0.graph.parents && (forall c :: c in rest ==> c in s0.graph.parents)
    && StoreShaped(s) && cur in s.graph.parents && i <= |rest| && (forall c :: c in rest ==> c in s.graph.parents)
    && var whole := FoldOf(opts, env, s0, base, rest, clock, fuel);
       var left := FoldOf(opts, env, s, cur, rest[i..], clock, fuel);
       whole.0 == left.0 && whole.1 == left.1 && vcommits + whole.2 == vs + left.2
  }

  /** One round of the fold: a failed merge ends it with the whole fold's
      outcome; a successful one leaves the rest of the fold to do. */
  lemma FoldAdvance(opts: MergeOptions, env: Env, s0: Store, base: CommitId, rest: seq<CommitId>,
                    clock: Clock, fuel: nat, s: Store, cur: CommitId, i: nat,
                    vcommits: seq<CommitId>, vs: seq<CommitId>)
    requires FoldStep(opts, env, s0, base, rest, clock, fuel, s, cur, i, vcommits, vs) && i < |rest|
    ensures var v := VirtualBaseOf(opts, env, s, cur, rest[i], clock, fuel);
            var whole := FoldOf(opts, env, s0, base, rest, clock, fuel);
            && (!v.0.VOk? ==> whole.0 == v.0 && whole.1 == v.1 && vcommits + whole.2 == vs + v.2)
            && (v.0.VOk? ==> FoldStep(opts, env, s0, base, rest, clock, fuel, v.1, v.0.base, i + 1, vcommits, vs + v.2))
  {
    assert rest[i..][0] == rest[i] && rest[i..][1..] == rest[i + 1..];
    var v := VirtualBaseOf(opts, env, s, cur, rest[i], clock, fuel);
    if v.0.VOk? {
      var f := FoldOf(opts, env, v.1, v.0.base, rest[i + 1..], clock, fuel);
      AppendAssoc(vs, v.2, f.2);
    }
  }

  /** `_create_virtual_merge_base_for_lcas` on the LCAs newest first: the
      newest is merged in turn with each older one. */
  method VirtualBaseForLcas(repo: Repo, opts: MergeOptions, env: Env, lcasNewestFirst: seq<CommitId>,
                            clock: Clock, fuel: nat, vcommits: seq<CommitId>)
    returns (rv: VResult, vs: seq<CommitId>)
    requires |lcasNewestFirst| > 0
    requires StoreShaped(repo.State())
    requires forall c :: c in lcasNewestFirst ==> c in repo.graph.parents
    modifies repo
    ensures Ran(FoldOf(opts, env, old(repo.State()), lcasNewestFirst[0], lcasNewestFirst[1..], clock, fuel), vcommits, rv, repo.State(), vs)
  {
    rv, vs := FoldBases(repo, opts, env, lcasNewestFirst[0], lcasNewestFirst[1..], clock, fuel, vcommits);
  }

  /** `_create_virtual_merge_base_internal(b1, b2)`: the LCAs of `b1` and
      `b2`, newest first, are folded into one base (there must be at least
      one: the first is popped unconditionally); the two commits are then
      merged against it. Each nested call spends one unit of `fuel`, which
      stands for the interpreter's recursion limit. */
  method VirtualBaseInternal(repo: Repo, opts: MergeOptions, env: Env, b1: CommitId, b2: CommitId,
                             clock: Clock, fuel: nat, vcommits: seq<CommitId>)
    returns (rv: VResult, vs: seq<CommitId>)
    requires StoreShaped(repo.State())
    requires b1 in repo.graph.parents && b2 in repo.graph.parents
    modifies repo
    ensures Ran(VirtualBaseOf(opts, env, old(repo.State()), b1, b2, clock, fuel), vcommits, rv, repo.State(), vs)
    decreases fuel, 0, 2
  {
    if fuel == 0 {
      return VCrash(RecursionDepth), vcommits;
    }
    rv, vs := VirtualBaseFuelled(repo, opts, env, b1, b2, clock, fuel, vcommits);
  }

  /** `_create_virtual_merge_base_internal` below the depth limit. */
  method VirtualBaseFuelled(repo: Repo, opts: MergeOptions, env: Env, b1: CommitId, b2: CommitId,
                            clock: Clock, fuel: nat, vcommits: seq<CommitId>)
    returns (rv: VResult, vs: seq<CommitId>)
    requires StoreShaped(repo.State())
    requires b1 in repo.graph.parents && b2 in repo.graph.parents && fuel > 0
    modifies repo
    ensures Ran(VirtualBaseOf(opts, env, old(repo.State()), b1, b2, clock, fuel), vcommits, rv, repo.State(), vs)
    decreases fuel, 0, 1
  {
    var lcas := PairBase(repo.graph, b1, b2);
    var depth: nat := fuel - 1;
    rv, vs := VirtualBaseFound(repo, opts, env, b1, b2, lcas, clock, depth, vcommits);
    VirtualBaseStep(opts, env, old(repo.State()), b1, b2, clock, fuel, depth, lcas, vcommits, rv, repo.State(), vs);
  }

  /** `_create_virtual_merge_base_internal` once its LCAs are found, with
      `depth` nested calls left. */
  method VirtualBaseFound(repo: Repo, opts: MergeOptions, env: Env, b1: CommitId, b2: CommitId, lcas: seq<CommitId>,
                          clock: Clock, depth: nat, vcommits: seq<CommitId>)
    returns (rv: VResult, vs: seq<CommitId>)
    requires StoreShaped(repo.State())
    requires b1 in repo.graph.parents && b2 in repo.graph.parents
    requires forall c :: c in lcas ==> c in repo.graph.parents
    modifies repo
    ensures Ran(VirtualBaseFoundOf(opts, env, old(repo.State()), b1, b2, lcas, clock, depth), vcommits, rv, repo.State(), vs)
    decreases depth, 3
  {
    if lcas == [] {
      return VCrash(EmptyPop), vcommits;
    }
    ReverseMembers(lcas);
    rv, vs := FoldThenMerge(repo, opts, env, b1, b2, Reverse(lcas), clock, depth, vcommits);
    VirtualBaseFold(opts, env, old(repo.State()), b1, b2, lcas, clock, depth, vcommits, rv, repo.State(), vs);
  }

  /** With LCAs found, a run of their fold and merge is a run of the
      virtual base. */
  lemma VirtualBaseFold(opts: MergeOptions, env: Env, s: Store, b1: CommitId, b2: CommitId, lcas: seq<CommitId>,
                        clock: Clock, depth: nat, vcommits: seq<CommitId>, rv: VResult, st: Store, vs: seq<CommitId>)
    requires StoreShaped(s) && b1 in s.graph.parents && b2 in s.graph.parents
    requires lcas != [] && forall c :: c in Reverse(lcas) ==> c in s.graph.parents
    requires forall c :: c in lcas ==> c in s.graph.parents
    requires Ran(FoldThenMergeOf(opts, env, s, b1, b2, Reverse(lcas), clock, depth), vcommits, rv, st, vs)
    ensures Ran(VirtualBaseFoundOf(opts, env, s, b1, b2, lcas, clock, depth), vcommits, rv, st, vs)
  {
  }

  /** `lcas` are the LCAs of `b1` and `b2` in the store `s`. */
  ghost predicate PairLcasIn(s: Store, b1: CommitId, b2: CommitId, lcas: seq<CommitId>)
  {
    StoreShaped(s) && b1 in s.graph.parents && b2 in s.graph.parents && lcas == MergeBaseOf(s.graph, [b1, b2])
  }

  /** With fuel left and no LCAs, the virtual base fails on the empty pop. */
  lemma VirtualBaseNone(opts: MergeOptions, env: Env, s: Store, b1: CommitId, b2: CommitId, clock: Clock, fuel: nat)
    requires StoreShaped(s) && b1 in s.graph.parents && b2 in s.graph.parents
    requires fuel > 0 && MergeBaseOf(s.graph, [b1, b2]) == []
    ensures VirtualBaseOf(opts, env, s, b1, b2, clock, fuel) == (VCrash(EmptyPop), s, [])
  {
  }

  /** With fuel left, a run of the virtual base on the LCAs found is a run
      of the virtual base. */
  lemma VirtualBaseStep(opts: MergeOptions, env: Env, s: Store, b1: CommitId, b2: CommitId, clock: Clock, fuel: nat, depth: nat,
                        lcas: seq<CommitId>, vcommits: seq<CommitId>, rv: VResult, st: Store, vs: seq<CommitId>)
    requires fuel == depth + 1 && PairLcasIn(s, b1, b2, lcas)
    requires Ran(VirtualBaseFoundOf(opts, env, s, b1, b2, lcas, clock, depth), vcommits, rv, st, vs)
    ensures Ran(VirtualBaseOf(opts, env, s, b1, b2, clock, fuel), vcommits, rv, st, vs)
  {
    VirtualBaseIsFound(opts, env, s, b1, b2, clock, fuel, depth, lcas);
  }

  /** With fuel left, the virtual base is the virtual base on the LCAs. */
  lemma VirtualBaseIsFound(opts: MergeOptions, env: Env, s: Store, b1: CommitId, b2: CommitId, clock: Clock, fuel: nat,
                           depth: nat, lcas: seq<CommitId>)
    requires StoreShaped(s) && b1 in s.graph.parents && b2 in s.graph.parents
    requires fuel == depth + 1 && lcas == MergeBaseOf(s.graph, [b1, b2])
    ensures VirtualBaseOf(opts, env, s, b1, b2, clock, fuel) == VirtualBaseFoundOf(opts, env, s, b1, b2, lcas, clock, depth)
  {
  }

  /** The body of `_create_virtual_merge_base_internal` once LCAs are found:
      they are folded into one base, newest first, and `b1` and `b2` are
      merged against it. */
  method FoldThenMerge(repo: Repo, opts: MergeOptions, env: Env, b1: CommitId, b2: CommitId,
                       newestFirst: seq<CommitId>, clock: Clock, fuel: nat, vcommits: seq<CommitId>)
    returns (rv: VResult, vs: seq<CommitId>)
    requires StoreShaped(repo.State())
    requires b1 in repo.graph.parents && b2 in repo.graph.parents
    requires newestFirst != [] && forall c :: c in newestFirst ==> c in repo.graph.parents
    modifies repo
    ensures Ran(FoldThenMergeOf(opts, env, old(repo.State()), b1, b2, newestFirst, clock, fuel), vcommits, rv, repo.State(), vs)
    decreases fuel, 2
  {
    ghost var f := FoldOf(opts, env, repo.State(), newestFirst[0], newestFirst[1..], clock, fuel);
    var baseRv;
    baseRv, vs := FoldBases(repo, opts, env, newestFirst[0], newestFirst[1..], clock, fuel, vcommits);
    if !baseRv.VOk? {
      return baseRv, vs;
    }
    ghost var m := MergeIntoOf(opts, env, f.1, b1, b2, baseRv.base, clock);
    rv, vs := MergeIntoVirtual(repo, opts, env, b1, b2, baseRv.base, clock, vs);
    AppendAssoc(vcommits, f.2, m.2);
  }

  /** `find_merge_base(repo, [b1, b2])`, seen only through its definition. */
  method PairBase(g: CommitGraph, b1: CommitId, b2: CommitId) returns (lcas: seq<CommitId>)
    requires Closed(g) && b1 in g.parents && b2 in g.parents
    ensures lcas == MergeBaseOf(g, [b1, b2])
  {
    lcas := FindMergeBase(g, [b1, b2]);
  }

  /** The second half of `_create_virtual_merge_base_internal`: `b1` and `b2`
      merged against `base`; -1 on a blocking conflict, otherwise a new
      virtual commit of the merged tree. */
  method MergeIntoVirtual(repo: Repo, opts: MergeOptions, env: Env, b1: CommitId, b2: CommitId, base: CommitId,
                          clock: Clock, vcommits: seq<CommitId>)
    returns (rv: VResult, vs: seq<CommitId>)
    requires StoreShaped(repo.State())
    requires b1 in repo.graph.parents && b2 in repo.graph.parents && base in repo.graph.parents
    modifies repo
    ensures Ran(MergeIntoOf(opts, env, old(repo.State()), b1, b2, base, clock), vcommits, rv, repo.State(), vs)
  {
    var plan := PlanVirtual(opts, env, repo.treeOf[b1], repo.treeOf[b2], repo.treeOf[base]);
    match plan
    case Blocked => return VFail, vcommits;
    case Raised(f) => return VCrash(f), vcommits;
    case Clean(t) => rv, vs := CommitMerged(repo, t, b1, b2, clock, vcommits);
  }

  /** The tree merge of `_create_virtual_merge_base_internal`: a blocking
      conflict gives up, an exception propagates, and otherwise the merged
      entries are written over `b1`'s tree. */
  method PlanVirtual(opts: MergeOptions, env: Env, b1Tree: ObjectId, b2Tree: ObjectId, baseTree: ObjectId)
    returns (plan: VPlan)
    ensures plan == VirtualPlan(opts, env, b1Tree, b2Tree, baseTree)
  {
    var stream := MergeTree(opts, env, env.treeChanges(baseTree, b1Tree), env.treeChanges(baseTree, b2Tree));
    var blocked, entries := CollectVirtual(stream.items);
    if blocked {
      return Blocked;
    }
    if stream.failure.Some? {
      return Raised(stream.failure.value);
    }
    var merged := UpdatedTreeEntries(TreeEntries(env.tree(b1Tree), []), entries);
    return Clean(env.treeId(merged));
  }

  /** The clean end of `_create_virtual_merge_base_internal`: the merged
      tree committed as a virtual commit with parents `b1` and `b2`. */
  method CommitMerged(repo: Repo, tree: ObjectId, b1: CommitId, b2: CommitId, clock: Clock, vcommits: seq<CommitId>)
    returns (rv: VResult, vs: seq<CommitId>)
    requires StoreShaped(repo.State()) && b1 in repo.graph.parents && b2 in repo.graph.parents
    modifies repo
    ensures rv == VOk(old(repo.nextId)) && vs == vcommits + [old(repo.nextId)]
    ensures repo.State() == AddCommit(old(repo.State()), tree, b1, b2, clock)
  {
    var vc := repo.CommitVirtual(tree, b1, b2, clock);
    return VOk(vc), vcommits + [vc];
  }

  /** One record of the index's merge-conflict stages: 1 for the base, 2 for
      this side, 3 for the other side. */
  datatype StageRecord = StageRecord(path: Option<Path>, stage: nat, mode: Option<Mode>, sha: Option<ObjectId>)

  /** What `merge` hands to the index: the paths to stage and the conflict
      records to set. */
  datatype StagePlan = StagePlan(toStage: seq<Option<Path>>, records: seq<StageRecord>)

  function Record(e: Entry, stage: nat): StageRecord
  {
    StageRecord(e.path, stage, e.mode, e.sha)
  }

  /** The updated paths that need no merging by hand, in order. */
  function ToStage(es: seq<Entry>, hand: set<Option<Path>>): (r: seq<Option<Path>>)
    ensures forall p :: p in r ==> p !in hand
  {
    if es == [] then []
    else ToStage(es[..|es| - 1], hand) + (if es[|es| - 1].path !in hand then [es[|es| - 1].path] else [])
  }

  /** Three records per chunk conflict: base, this, other. */
  function ConflictRecords(cs: seq<MergeConflict>): (r: seq<StageRecord>)
    requires forall k :: 0 <= k < |cs| ==> ChunkShaped(cs[k])
  {
    if cs == [] then []
    else
      var c := cs[|cs| - 1];
      assert ChunkShaped(c);
      ConflictRecords(cs[..|cs| - 1]) + [Record(c.baseEntry.e, 1), Record(c.thisEntry.e, 2), Record(c.otherEntry.e, 3)]
  }

  /** The records of conflict `k` sit at positions `3k`, `3k+1`, `3k+2` with
      stages 1, 2, 3 and the entries of the base, this and other sides. */
  lemma {:induction false} ConflictRecordsLayout(cs: seq<MergeConflict>, k: nat)
    requires forall j :: 0 <= j < |cs| ==> ChunkShaped(cs[j])
    requires k < |cs|
    ensures |ConflictRecords(cs)| == 3 * |cs|
    ensures ConflictRecords(cs)[3 * k] == Record(cs[k].baseEntry.e, 1)
    ensures ConflictRecords(cs)[3 * k + 1] == Record(cs[k].thisEntry.e, 2)
    ensures ConflictRecords(cs)[3 * k + 2] == Record(cs[k].otherEntry.e, 3)
  {
    if k < |cs| - 1 {
      ConflictRecordsLayout(cs[..|cs| - 1], k);
    } else if |cs| > 1 {
      ConflictRecordsLayout(cs[..|cs| - 1], 0);
    }
  }

  /** A path is staged exactly when it is the path of an updated entry and
      needs no merging by hand. */
  lemma {:induction false} ToStageMembers(es: seq<Entry>, hand: set<Option<Path>>, p: Option<Path>)
    ensures p in ToStage(es, hand) <==> p !in hand && exists k :: 0 <= k < |es| && es[k].path == p
  {
    if es != [] {
      var init := es[..|es| - 1];
      ToStageMembers(init, hand, p);
      if p !in hand && (exists k :: 0 <= k < |es| && es[k].path == p) {
        var k :| 0 <= k < |es| && es[k].path == p;
        if k < |es| - 1 {
          assert init[k].path == p;
        }
      }
      if exists k :: 0 <= k < |init| && init[k].path == p {
        var k :| 0 <= k < |init| && init[k].path == p;
        assert es[k].path == p;
      }
    }
  }

  /** The staging loops of `merge` (the working-tree writes are not modelled). */
  method PlanStaging(results: MergeResults) returns (plan: StagePlan)
    requires results.Valid()
    ensures plan == StagePlan(ToStage(results.updatedTreeEntries, results.handMergeSet),
                              ConflictRecords(results.chunkConflicts))
  {
    var es := results.updatedTreeEntries;
    var toStage := [];
    var i := 0;
    while i < |es|
      invariant 0 <= i <= |es|
      invariant toStage == ToStage(es[..i], results.handMergeSet)
    {
      assert es[..i + 1][..i] == es[..i];
      if !results.NeedsToBeHandMerged(es[i].path) {
        toStage := toStage + [es[i].path];
      }
      i := i + 1;
    }
    assert es[..i] == es;
    var cs := results.chunkConflicts;
    var records := [];
    var j := 0;
    while j < |cs|
      invariant 0 <= j <= |cs|
      invariant records == ConflictRecords(cs[..j])
    {
      assert cs[..j + 1][..j] == cs[..j];
      var c := cs[j];
      records := records + [Record(c.baseEntry.e, 1)];
      records := records + [Record(c.thisEntry.e, 2)];
      records := records + [Record(c.otherEntry.e, 3)];
      j := j + 1;
    }
    assert cs[..j] == cs;
    plan := StagePlan(toStage, records);
  }

  /** The strategies for which several LCAs are folded into a virtual base. */
  predicate FoldsLcas(s: Strategy)
  {
    s in {Ort, OrtOurs, OrtTheirs, Recursive}
  }

  /** `lcas` are common ancestors of `c1` and `c2` in `g`, oldest first. */
  ghost predicate CommonAncestors(g: CommitGraph, lcas: seq<CommitId>, c1: CommitId, c2: CommitId)
  {
    && (forall c :: c in lcas ==> c in g.parents && IsAncestor(g, c, c1) && IsAncestor(g, c, c2))
    && (forall i, j :: 0 <= i < j < |lcas| ==> lcas[i] in g.stamp && lcas[j] in g.stamp && g.stamp[lcas[i]] <= g.stamp[lcas[j]])
  }

  /** How the merge base follows from the common ancestors: the newest one,
      a fresh virtual commit when several are folded together, or a fresh
      commit of the empty tree when there is none. */
  ghost predicate BaseChosen(g: CommitGraph, lcas: seq<CommitId>, base: CommitId, virtualBase: bool, strategy: Strategy)
  {
    && (lcas != [] && !virtualBase ==> base == lcas[|lcas| - 1])
    && (lcas == [] ==> !virtualBase && base !in g.parents)
    && (virtualBase ==> |lcas| > 1 && FoldsLcas(strategy) && base !in g.parents)
  }

  /** The base `merge` takes once LCAs are found, as a definition: the
      newest LCA, unless the strategy folds several of them and the fold
      gives a virtual base; an exception in the fold ends the merge. The
      result is the base, the store after it, the virtual commits made, and
      the exception. */
  ghost function FromLcasOf(opts: MergeOptions, env: Env, s: Store, lcas: seq<CommitId>, clock: Clock, fuel: nat)
    : (r: (CommitId, Store, seq<CommitId>, Option<Failure>))
    requires StoreShaped(s) && lcas != [] && forall c :: c in lcas ==> c in s.graph.parents
    ensures StoreGrown(s, r.1, r.2)
    ensures r.3.None? ==> r.0 in r.1.graph.parents
  {
    GrownNone(s);
    var newest := lcas[|lcas| - 1];
    if |lcas| > 1 && FoldsLcas(opts.strategy) then
      var nf := Reverse(lcas);
      assert forall c :: c in nf ==> c in s.graph.parents;
      var f := FoldOf(opts, env, s, nf[0], nf[1..], clock, fuel);
      match f.0
      case VOk(b) => (b, f.1, f.2, None)
      case VFail => (newest, f.1, f.2, None)
      case VCrash(x) => (newest, f.1, f.2, Some(x))
    else (newest, s, [], None)
  }

  /** The base-choosing part of `merge` as a definition: with no LCA, a fresh
      commit of the empty tree whose parents are the two commits. */
  ghost function ChosenBase(opts: MergeOptions, env: Env, s: Store, thisC: CommitId, otherC: CommitId, clock: Clock, fuel: nat)
    : (r: (CommitId, Store, seq<CommitId>, Option<Failure>))
    requires StoreShaped(s) && thisC in s.graph.parents && otherC in s.graph.parents
    ensures StoreGrown(s, r.1, r.2)
    ensures r.3.None? ==> r.0 in r.1.graph.parents
  {
    var lcas := MergeBaseOf(s.graph, [thisC, otherC]);
    if lcas == [] then
      GrownAdd(s, env.treeId([]), thisC, otherC, clock);
      (s.nextId, AddCommit(s, env.treeId([]), thisC, otherC, clock), [s.nextId], None)
    else FromLcasOf(opts, env, s, lcas, clock, fuel)
  }

  /** With LCAs found, the base is the newest LCA unless it is a fresh
      commit, which only a fold of several LCAs makes; an exception can come
      only from such a fold; a single LCA is the base, with nothing made. */
  lemma FromLcasRule(opts: MergeOptions, env: Env, s: Store, lcas: seq<CommitId>, clock: Clock, fuel: nat)
    requires StoreShaped(s) && lcas != [] && forall c :: c in lcas ==> c in s.graph.parents
    ensures var c := FromLcasOf(opts, env, s, lcas, clock, fuel);
            && (c.0 in s.graph.parents ==> c.0 == lcas[|lcas| - 1])
            && (c.0 !in s.graph.parents ==> |lcas| > 1 && FoldsLcas(opts.strategy))
            && (c.3.Some? ==> |lcas| > 1 && FoldsLcas(opts.strategy))
            && (|lcas| == 1 ==> c == (lcas[0], s, [], None))
  {
    if |lcas| > 1 && FoldsLcas(opts.strategy) {
      var nf := Reverse(lcas);
      ReverseMembers(lcas);
      assert nf[1..] != [] && nf[0] == lcas[|lcas| - 1];
      var f := FoldOf(opts, env, s, nf[0], nf[1..], clock, fuel);
      assert f.0.VOk? ==> f.0.base !in s.graph.parents;
    }
  }

  /** How the chosen base relates to the LCAs: the newest LCA, a fresh
      virtual commit made by folding several of them, or a fresh commit of
      the empty tree with the two commits as parents when there is none; an
      exception can come only from a fold. */
  lemma ChosenBaseRule(opts: MergeOptions, env: Env, s: Store, thisC: CommitId, otherC: CommitId, clock: Clock, fuel: nat)
    requires StoreShaped(s) && thisC in s.graph.parents && otherC in s.graph.parents
    ensures var lcas := MergeBaseOf(s.graph, [thisC, otherC]);
            var c := ChosenBase(opts, env, s, thisC, otherC, clock, fuel);
            && BaseChosen(s.graph, lcas, c.0, lcas != [] && c.0 !in s.graph.parents, opts.strategy)
            && (lcas == [] ==> c.0 in c.1.graph.parents && c.1.graph.parents[c.0] == [thisC, otherC]
                               && c.1.treeOf[c.0] == env.treeId([]) && c.3.None?)
            && (c.3.Some? ==> |lcas| > 1 && FoldsLcas(opts.strategy))
            && (|lcas| == 1 ==> c == (lcas[0], s, [], None))
  {
    var lcas := MergeBaseOf(s.graph, [thisC, otherC]);
    if lcas != [] {
      FromLcasRule(opts, env, s, lcas, clock, fuel);
    }
  }

  /** The merge-base choice of `merge`: the LCAs of the two commits, then
      the base taken from them, or a virtual commit of the empty tree when
      there is none. */
  method SelectBase(repo: Repo, opts: MergeOptions, env: Env, thisC: CommitId, otherC: CommitId, clock: Clock, fuel: nat)
    returns (base: CommitId, vcommits: seq<CommitId>, failure: Option<Failure>, ghost lcas: seq<CommitId>)
    requires StoreShaped(repo.State()) && thisC in repo.graph.parents && otherC in repo.graph.parents
    modifies repo
    ensures var c := ChosenBase(opts, env, old(repo.State()), thisC, otherC, clock, fuel);
            base == c.0 && repo.State() == c.1 && vcommits == c.2 && failure == c.3
    ensures lcas == MergeBaseOf(old(repo.graph), [thisC, otherC])
    ensures CommonAncestors(old(repo.graph), lcas, thisC, otherC)
    ensures Acyclic(old(repo.graph)) && AllAbove(old(repo.graph), 0) ==> CoversAll(old(repo.graph), [thisC, otherC], lcas)
  {
    var found := PairLcas(repo.graph, thisC, otherC);
    lcas := found;
    if found == [] {
      ChosenEmpty(opts, env, old(repo.State()), thisC, otherC, clock, fuel);
      base, vcommits := EmptyTreeBase(repo, env, thisC, otherC, clock);
      failure := None;
    } else {
      ChosenFromLcas(opts, env, old(repo.State()), thisC, otherC, clock, fuel);
      base, vcommits, failure := BaseFromLcas(repo, opts, env, found, clock, fuel);
    }
  }

  /** `find_merge_base(repo, [c1, c2])` with what is known of its result:
      common ancestors, oldest first, covering every common ancestor in an
      acyclic store. */
  method PairLcas(g: CommitGraph, c1: CommitId, c2: CommitId) returns (lcas: seq<CommitId>)
    requires Closed(g) && c1 in g.parents && c2 in g.parents
    ensures lcas == MergeBaseOf(g, [c1, c2])
    ensures CommonAncestors(g, lcas, c1, c2)
    ensures Acyclic(g) && AllAbove(g, 0) ==> CoversAll(g, [c1, c2], lcas)
  {
    lcas := FindMergeBase(g, [c1, c2]);
    PairCovers(g, [c1, c2], lcas);
  }

  /** With no LCA, the chosen base is a fresh commit of the empty tree. */
  lemma ChosenEmpty(opts: MergeOptions, env: Env, s: Store, thisC: CommitId, otherC: CommitId, clock: Clock, fuel: nat)
    requires StoreShaped(s) && thisC in s.graph.parents && otherC in s.graph.parents
    requires MergeBaseOf(s.graph, [thisC, otherC]) == []
    ensures ChosenBase(opts, env, s, thisC, otherC, clock, fuel)
            == (s.nextId, AddCommit(s, env.treeId([]), thisC, otherC, clock), [s.nextId], None)
  {
  }

  /** With LCAs, the chosen base is the one taken from them. */
  lemma ChosenFromLcas(opts: MergeOptions, env: Env, s: Store, thisC: CommitId, otherC: CommitId, clock: Clock, fuel: nat)
    requires StoreShaped(s) && thisC in s.graph.parents && otherC in s.graph.parents
    requires MergeBaseOf(s.graph, [thisC, otherC]) != []
    ensures ChosenBase(opts, env, s, thisC, otherC, clock, fuel)
            == FromLcasOf(opts, env, s, MergeBaseOf(s.graph, [thisC, otherC]), clock, fuel)
  {
  }

  /** With LCAs found, the newest one is the base, unless the strategy folds
      several of them into a virtual base and that fold produces one. */
  method BaseFromLcas(repo: Repo, opts: MergeOptions, env: Env, found: seq<CommitId>, clock: Clock, fuel: nat)
    returns (base: CommitId, vcommits: seq<CommitId>, failure: Option<Failure>)
    requires StoreShaped(repo.State())
    requires found != [] && forall c :: c in found ==> c in repo.graph.parents
    modifies repo
    ensures var c := FromLcasOf(opts, env, old(repo.State()), found, clock, fuel);
            base == c.0 && repo.State() == c.1 && vcommits == c.2 && failure == c.3
  {
    vcommits := [];
    failure := None;
    base := found[|found| - 1];
    if |found| > 1 && FoldsLcas(opts.strategy) {
      var rv;
      rv, vcommits := VirtualBaseForLcas(repo, opts, env, Reverse(found), clock, fuel, vcommits);
      if rv.VCrash? {
        failure := Some(rv.failure);
      } else if rv.VOk? {
        base := rv.base;
      }
    }
  }

  /** With no LCA, `merge` commits the empty tree as a virtual base whose
      parents are the two commits. */
  method EmptyTreeBase(repo: Repo, env: Env, thisC: CommitId, otherC: CommitId, clock: Clock)
    returns (base: CommitId, vcommits: seq<CommitId>)
    requires StoreShaped(repo.State()) && thisC in repo.graph.parents && otherC in repo.graph.parents
    modifies repo
    ensures base == old(repo.nextId) && vcommits == [base]
    ensures repo.State() == AddCommit(old(repo.State()), env.treeId([]), thisC, otherC, clock)
  {
    base := repo.CommitVirtual(env.treeId([]), thisC, otherC, clock);
    vcommits := [base];
  }

  /** The part of `merge` run when no structure conflict was recorded: the
      merged tree's id and the staging plan. */
  method FinishMerge(results: MergeResults, env: Env, thisTree: ObjectId) returns (plan: Option<StagePlan>)
    requires results.Valid() && results.treeId == None
    requires forall k :: 0 <= k < |results.updatedTreeEntries| ==>
               results.updatedTreeEntries[k].path.Some? && Truthy(results.updatedTreeEntries[k])
    modifies results
    ensures results.Valid()
    ensures results.structureConflicts == old(results.structureConflicts) && results.chunkConflicts == old(results.chunkConflicts)
    ensures results.handMergeSet == old(results.handMergeSet) && results.updatedTreeEntries == old(results.updatedTreeEntries)
    ensures results.treeId == if results.MergeComplete()
                              then Some(env.treeId(Overlay(TreeEntries(env.tree(thisTree), []), old(results.updatedTreeEntries))))
                              else None
    ensures plan == if results.MergeComplete()
                    then Some(StagePlan(ToStage(results.updatedTreeEntries, results.handMergeSet),
                                        ConflictRecords(results.chunkConflicts)))
                    else None
  {
    plan := None;
    if results.MergeComplete() {
      var merged := UpdatedTreeEntries(TreeEntries(env.tree(thisTree), []), results.updatedTreeEntries);
      results.treeId := Some(env.treeId(merged));
      var p := PlanStaging(results);
      plan := Some(p);
    }
  }

  /** The results of a merge of this tree `thisTree` whose tree walk produced
      `s` without an exception: every conflict sorted into its list, every
      truthy entry kept, and, exactly when no structure conflict was
      recorded, the id of this tree overlaid with the kept entries and a
      staging plan. */
  ghost predicate Recorded(results: MergeResults, plan: Option<StagePlan>, env: Env, thisTree: ObjectId, s: Stream<Item>)
    reads results
  {
    && results.Valid()
    && s.failure.None?
    && results.structureConflicts == Filter(ConflictsOf(s.items), IsBlocking)
    && results.chunkConflicts == Filter(ConflictsOf(s.items), IsChunk)
    && results.updatedTreeEntries == MaterialEntries(s.items)
    && results.treeId == (if results.MergeComplete()
                          then Some(env.treeId(Overlay(TreeEntries(env.tree(thisTree), []), results.updatedTreeEntries)))
                          else None)
    && plan == (if results.MergeComplete()
                then Some(StagePlan(ToStage(results.updatedTreeEntries, results.handMergeSet),
                                    ConflictRecords(results.chunkConflicts)))
                else None)
  }

  /** The rest of `merge` once a base is chosen: the two commits merged
      against it, the results collected, the merge finished when complete,
      and the virtual commits removed. An exception in the tree walk ends it. */
  method MergeAgainst(repo: Repo, results: MergeResults, opts: MergeOptions, env: Env,
                      thisC: CommitId, otherC: CommitId, base: CommitId, vcommits: seq<CommitId>, ghost s0: Store)
    returns (failure: Option<Failure>, plan: Option<StagePlan>)
    requires StoreShaped(s0) && StoreGrown(s0, repo.State(), vcommits)
    requires thisC in s0.graph.parents && otherC in s0.graph.parents && base in repo.graph.parents
    requires results.Valid() && results.treeId == None
    requires results.structureConflicts == [] && results.chunkConflicts == [] && results.updatedTreeEntries == []
    modifies repo, results
    ensures results.Valid()
    ensures var stream := MergeTree(opts, env, env.treeChanges(old(repo.treeOf)[base], s0.treeOf[thisC]),
                                               env.treeChanges(old(repo.treeOf)[base], s0.treeOf[otherC]));
            && failure == stream.failure
            && (failure.None? ==> Recorded(results, plan, env, s0.treeOf[thisC], stream)
                                  && repo.graph == s0.graph && repo.treeOf == s0.treeOf)
  {
    plan := None;
    var thisTree, otherTree, baseTree := repo.treeOf[thisC], repo.treeOf[otherC], repo.treeOf[base];
    var stream := MergeTree(opts, env, env.treeChanges(baseTree, thisTree), env.treeChanges(baseTree, otherTree));
    CollectResults(results, stream.items);
    if stream.failure.Some? {
      return stream.failure, None;
    }
    failure := None;
    plan := FinishMerge(results, env, thisTree);
    ghost var g, t, n := repo.graph, repo.treeOf, repo.nextId;
    repo.RemoveCommits(vcommits);
    GrownRemoved(s0.graph, s0.treeOf, s0.nextId, g, t, n, vcommits);
  }

  /** `merge(repo, moptions, commit_ids)`. Anything but two commits gives a
      single structure conflict. Otherwise the base is chosen, the two
      commits are merged against it, every conflict is sorted into its list
      and every truthy entry kept; a complete merge (no structure conflict)
      gets the merged tree's id and a staging plan. Finally every virtual
      commit made on the way is removed again. An exception ends the merge
      where it is raised. */
  method Merge(repo: Repo, opts: MergeOptions, env: Env, ids: seq<CommitId>, clock: Clock, fuel: nat)
    returns (results: MergeResults, failure: Option<Failure>, plan: Option<StagePlan>,
             ghost lcas: seq<CommitId>, ghost base: CommitId, ghost baseTree: ObjectId)
    requires repo.Valid() && forall c :: c in ids ==> c in repo.graph.parents
    modifies repo
    ensures fresh(results) && results.Valid()
    ensures |ids| != 2 ==>
              && failure == None && plan == None
              && results.structureConflicts == [MergeConflict(StructureKind, Absent, Absent, Absent)]
              && results.chunkConflicts == [] && results.updatedTreeEntries == [] && results.treeId == None
              && repo.graph == old(repo.graph) && repo.treeOf == old(repo.treeOf)
    ensures |ids| == 2 ==> lcas == MergeBaseOf(old(repo.graph), ids) && CommonAncestors(old(repo.graph), lcas, ids[0], ids[1])
    ensures |ids| == 2 && Acyclic(old(repo.graph)) && AllAbove(old(repo.graph), 0) ==> CoversAll(old(repo.graph), ids, lcas)
    ensures |ids| == 2 ==> MergeOutcome(opts, env, old(repo.State()), ids[0], ids[1], clock, fuel, base, baseTree, failure)
    ensures |ids| == 2 && failure.None? ==>
              && Recorded(results, plan, env, old(repo.treeOf)[ids[0]],
                          MergeTree(opts, env, env.treeChanges(baseTree, old(repo.treeOf)[ids[0]]),
                                               env.treeChanges(baseTree, old(repo.treeOf)[ids[1]])))
              && repo.graph == old(repo.graph) && repo.treeOf == old(repo.treeOf)
  {
    results := new MergeResults();
    failure, plan := None, None;
    lcas, base, baseTree := [], 0, [];
    if |ids| != 2 {
      results.AddStructureConflict(MergeConflict(StructureKind, Absent, Absent, Absent));
      return;
    }
    failure, plan, lcas, base, baseTree := MergePair(repo, results, opts, env, ids[0], ids[1], clock, fuel);
    assert [ids[0], ids[1]] == ids;
  }

  /** `merge` of the two commits `thisC` and `otherC` into the empty
      `results`: the base is chosen, then the trees are merged against it. */
  method MergePair(repo: Repo, results: MergeResults, opts: MergeOptions, env: Env, thisC: CommitId, otherC: CommitId,
                   clock: Clock, fuel: nat)
    returns (failure: Option<Failure>, plan: Option<StagePlan>,
             ghost lcas: seq<CommitId>, ghost base: CommitId, ghost baseTree: ObjectId)
    requires StoreShaped(repo.State()) && thisC in repo.graph.parents && otherC in repo.graph.parents
    requires results.Valid() && results.treeId == None
    requires results.structureConflicts == [] && results.chunkConflicts == [] && results.updatedTreeEntries == []
    modifies repo, results
    ensures results.Valid()
    ensures lcas == MergeBaseOf(old(repo.graph), [thisC, otherC]) && CommonAncestors(old(repo.graph), lcas, thisC, otherC)
    ensures Acyclic(old(repo.graph)) && AllAbove(old(repo.graph), 0) ==> CoversAll(old(repo.graph), [thisC, otherC], lcas)
    ensures MergeOutcome(opts, env, old(repo.State()), thisC, otherC, clock, fuel, base, baseTree, failure)
    ensures failure.None? ==>
              && Recorded(results, plan, env, old(repo.treeOf)[thisC],
                          MergeTree(opts, env, env.treeChanges(baseTree, old(repo.treeOf)[thisC]),
                                               env.treeChanges(baseTree, old(repo.treeOf)[otherC])))
              && repo.graph == old(repo.graph) && repo.treeOf == old(repo.treeOf)
  {
    plan := None;
    baseTree := [];
    ghost var s0 := repo.State();
    var b, vcommits, f;
    b, vcommits, f, lcas := SelectBase(repo, opts, env, thisC, otherC, clock, fuel);
    base := b;
    if f.Some? {
      failure := f;
      return;
    }
    baseTree := repo.treeOf[b];
    failure, plan := MergeAgainst(repo, results, opts, env, thisC, otherC, b, vcommits, s0);
  }

  /** The base, its tree and the exception of a `merge` of two commits: the
      base is the chosen one and its tree is read from the store it was
      chosen in; the exception is the base choice's, or else the tree
      walk's. */
  ghost predicate MergeOutcome(opts: MergeOptions, env: Env, s: Store, thisC: CommitId, otherC: CommitId, clock: Clock, fuel: nat,
                               base: CommitId, baseTree: ObjectId, failure: Option<Failure>)
  {
    StoreShaped(s) && thisC in s.graph.parents && otherC in s.graph.parents
    && var c := ChosenBase(opts, env, s, thisC, otherC, clock, fuel);
       && base == c.0
       && (c.3.Some? ==> failure == c.3)
       && (c.3.None? ==> && base in c.1.treeOf && baseTree == c.1.treeOf[base]
                         && failure == MergeTree(opts, env, env.treeChanges(baseTree, s.treeOf[thisC]),
                                                            env.treeChanges(baseTree, s.treeOf[otherC])).failure)
  }
}
