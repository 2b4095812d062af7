/** Tree entries, change records and the per-path decision table that both
    merge.py and merge_addl.py apply to a pair of change records. */
module TreeTypes {
  import opened Common

  type Path = Bytes

  /** A hex object id of a blob or tree; opaque. */
  type ObjectId = Bytes

  /** A file mode word (permission and type bits). */
  type Mode = int

  /** `TreeEntry(path, mode, sha)`; any field may be `None`. */
  datatype Entry = Entry(path: Option<Path>, mode: Option<Mode>, sha: Option<ObjectId>)

  /** `NO_ENTRY`, also dulwich's null entry on the missing side of an add or a delete. */
  const NoEntry: Entry := Entry(None, None, None)

  /** Python truthiness of a path, a mode or an id: present and not empty / zero. */
  predicate Truthy(e: Entry)
  {
    && e.path.Some? && |e.path.value| > 0
    && e.mode.Some? && e.mode.value != 0
    && e.sha.Some? && |e.sha.value| > 0
  }

  datatype ChangeType = Add | Copy | Delete | Rename | Modify | Unchanged

  /** dulwich's `TreeChange(type, old, new)`. */
  datatype TreeChange = TreeChange(kind: ChangeType, oldEntry: Entry, newEntry: Entry)

  /** The strategies named by the merge options. */
  datatype Strategy = Ort | OrtOurs | OrtTheirs | Resolve | ResolveOurs | ResolveTheirs | Recursive | Unlisted

  /** A half-open range `(begin, end)` of line numbers of one file. */
  type LineRange = (int, int)

  /** `(range_o, range_a, range_b)` of one conflicting chunk: its lines in
      the ancestor, in this side and in the other side. */
  type ConflictRanges = (LineRange, LineRange, LineRange)

  /** The exceptions the modelled code can raise. */
  datatype Failure =
    | NoOldAttribute      // `other_entry.old` read on a TreeEntry
    | UnboundThisEntry    // `this_entry` read before any assignment
    | EmptyPop            // `pop(0)` on an empty list
    | NotImplementedRaised
    | UnpackMismatch      // `[a, b] = commit_ids` with a length other than two
    | UnboundMergeBase    // `merge_base` read when no LCA was found
    | MissingObject       // an object-store lookup with no id
    | RecursionDepth      // the interpreter's recursion limit
    | MissingSetMember    // `set.remove` of a name the set does not hold

  datatype Result<T> = Ok(value: T) | Err(failure: Failure)

  /** What a generator produced before it raised (if it did). */
  datatype Stream<T> = Stream(items: seq<T>, failure: Option<Failure>)

  /** The value in the `this_entry` slot of a conflict: nothing, a tree entry,
      or (as merge.py stores it in two places) a whole change record. */
  datatype Party = Absent | AtEntry(e: Entry) | AtChange(c: TreeChange)

  /** Why a pair of changes is a structural conflict. */
  datatype Clash =
    | BothAdded                  // "Both this and other add new file"
    | DeletedInOtherModifiedInThis
    | RenamedDifferently         // "was renamed by both sides"
    | DeletedInThisRenamedInOther
    | DeletedInThisModifiedInOther

  /** What the decision table does with one change on the other side. */
  datatype Decision =
    | Skip                                                   // identical change on both sides
    | TakeOther(entry: Entry)                                // other's new entry, no conflict
    | Conflict(mine: Party, theirs: Entry, base: Entry, why: Clash)
    | DeletePath(path: Option<Path>)                         // `TreeEntry(path, None, None)`
    | MergeBoth(path: Option<Path>, thisEntry: Entry, otherEntry: Entry, baseEntry: Entry)
    | UnsupportedPair                                        // "Not Implemented %r and %r"
    | UnsupportedType                                        // change type outside the table

  /** `{change.old.path: change for change in changes if change.old}`. A tree
      entry namedtuple is always true, so every change is kept: an add is keyed
      under `None`, and a later change overrides an earlier one with the same key. */
  function ByOldPath(cs: seq<TreeChange>): (m: map<Option<Path>, TreeChange>)
    ensures forall p :: p in m <==> exists k :: 0 <= k < |cs| && cs[k].oldEntry.path == p
    ensures forall p :: p in m ==> m[p] in cs && m[p].oldEntry.path == p
  {
    if cs == [] then map[]
    else ByOldPath(cs[..|cs| - 1])[cs[|cs| - 1].oldEntry.path := cs[|cs| - 1]]
  }

  /** `{change.new.path: change for change in changes if change.new}`. */
  function ByNewPath(cs: seq<TreeChange>): (m: map<Option<Path>, TreeChange>)
    ensures forall p :: p in m <==> exists k :: 0 <= k < |cs| && cs[k].newEntry.path == p
    ensures forall p :: p in m ==> m[p] in cs && m[p].newEntry.path == p
  {
    if cs == [] then map[]
    else ByNewPath(cs[..|cs| - 1])[cs[|cs| - 1].newEntry.path := cs[|cs| - 1]]
  }

  /** The change listed last for a key is the one the table holds. */
  lemma {:induction false} ByOldPathLast(cs: seq<TreeChange>, i: nat)
    requires i < |cs| && forall j :: i < j < |cs| ==> cs[j].oldEntry.path != cs[i].oldEntry.path
    ensures cs[i].oldEntry.path in ByOldPath(cs) && ByOldPath(cs)[cs[i].oldEntry.path] == cs[i]
  {
    if i < |cs| - 1 {
      ByOldPathLast(cs[..|cs| - 1], i);
    }
  }

  /** Every change held under some old path is also held, under its own new
      path, by the new-path table. */
  lemma {:induction false} ByOldPathInByNewPath(cs: seq<TreeChange>, k: Option<Path>)
    requires k in ByOldPath(cs)
    ensures ByOldPath(cs)[k].newEntry.path in ByNewPath(cs)
  {
    var init := cs[..|cs| - 1];
    if k != cs[|cs| - 1].oldEntry.path {
      ByOldPathInByNewPath(init, k);
    }
  }

  /** The branch table of `merge_tree` (merge.py:292-362, merge_addl.py:105-181)
      for one change `oc` of the other side, given this side's changes keyed by
      old and by new path. In the add branch the source compares the change
      record looked up on this side with other's new tree entry; a change record
      never equals a tree entry, so any change of this side at the same new path
      is a conflict. */
  function Classify(byOld: map<Option<Path>, TreeChange>, byNew: map<Option<Path>, TreeChange>,
                    oc: TreeChange): (d: Decision)
    ensures d.Skip? <==> oc.oldEntry.path in byOld && byOld[oc.oldEntry.path] == oc
    ensures d.TakeOther? ==> d.entry == oc.newEntry
    ensures d.Conflict? && d.why == BothAdded <==>
              !d.Skip? && oc.kind in {Add, Copy} && oc.newEntry.path in byNew
    ensures d.Conflict? && d.why == BothAdded ==> d.mine == AtChange(byNew[oc.newEntry.path])
  {
    var thisChange := if oc.oldEntry.path in byOld then Some(byOld[oc.oldEntry.path]) else None;
    if thisChange == Some(oc) then Skip
    else match oc.kind
      case Add | Copy =>
        if oc.newEntry.path !in byNew then TakeOther(oc.newEntry)
        else Conflict(AtChange(byNew[oc.newEntry.path]), oc.newEntry, oc.oldEntry, BothAdded)
      case Delete =>
        if thisChange.Some? && thisChange.value.kind !in {Delete, Unchanged}
        then Conflict(AtEntry(thisChange.value.newEntry), oc.newEntry, oc.oldEntry, DeletedInOtherModifiedInThis)
        else DeletePath(oc.oldEntry.path)
      case Rename =>
        if thisChange.None? then TakeOther(oc.newEntry)
        else if thisChange.value.kind == Rename then
          if thisChange.value.newEntry.path != oc.newEntry.path
          then Conflict(AtEntry(thisChange.value.newEntry), oc.newEntry, oc.oldEntry, RenamedDifferently)
          else MergeBoth(oc.newEntry.path, thisChange.value.newEntry, oc.newEntry, oc.oldEntry)
        else if thisChange.value.kind == Modify then MergeBoth(oc.newEntry.path, thisChange.value.newEntry, oc.newEntry, oc.oldEntry)
        else if thisChange.value.kind == Delete
        then Conflict(AtEntry(thisChange.value.newEntry), oc.newEntry, oc.oldEntry, DeletedInThisRenamedInOther)
        else UnsupportedPair
      case Modify =>
        if thisChange.None? then TakeOther(oc.newEntry)
        else if thisChange.value.kind == Delete
        then Conflict(AtEntry(thisChange.value.newEntry), oc.newEntry, oc.oldEntry, DeletedInThisModifiedInOther)
        else if thisChange.value.kind in {Modify, Rename}
        then MergeBoth(thisChange.value.newEntry.path, thisChange.value.newEntry, oc.newEntry, oc.oldEntry)
        else UnsupportedPair
      case Unchanged => UnsupportedType
  }

  /** Delete against modify, in either direction, is a structural conflict;
      a delete facing no change, a delete or an unchanged record deletes. */
  lemma DeleteVersusModify(byOld: map<Option<Path>, TreeChange>, byNew: map<Option<Path>, TreeChange>, oc: TreeChange)
    requires oc.oldEntry.path in byOld
    requires (oc.kind == Delete && byOld[oc.oldEntry.path].kind == Modify)
          || (oc.kind == Modify && byOld[oc.oldEntry.path].kind == Delete)
    ensures Classify(byOld, byNew, oc).Conflict?
  {
  }

  /** Changes on the other side only: an add, copy, rename or modify that this
      side does not touch takes other's entry; a delete that this side does not
      touch deletes. */
  lemma OtherOnly(byOld: map<Option<Path>, TreeChange>, byNew: map<Option<Path>, TreeChange>, oc: TreeChange)
    requires oc.kind in {Add, Copy} ==> oc.newEntry.path !in byNew && (oc.oldEntry.path in byOld ==> byOld[oc.oldEntry.path] != oc)
    requires oc.kind in {Delete, Rename, Modify} ==> oc.oldEntry.path !in byOld
    requires oc.kind != Unchanged
    ensures Classify(byOld, byNew, oc) == if oc.kind == Delete then DeletePath(oc.oldEntry.path) else TakeOther(oc.newEntry)
  {
  }

  /** `S_ISDIR(mode)`: the type bits `0o170000` equal `0o040000`. */
  predicate IsDir(mode: Mode)
  {
    mode >= 0 && (mode / 4096) % 16 == 4
  }

  const Slash: byte := 47

  /** `posixpath.join(a, b)` for two byte strings. */
  function JoinPath(a: Path, b: Path): (r: Path)
    ensures |a| > 0 && a[|a| - 1] != Slash && (|b| == 0 || b[0] != Slash) ==> r == a + [Slash] + b
  {
    if |b| > 0 && b[0] == Slash then b
    else if |a| == 0 || a[|a| - 1] == Slash then a + b
    else a + [Slash] + b
  }

  /** A tree object as the store answers it: each item with its name, mode and
      id, and for a directory the subtree the id names. */
  datatype Tree = Tree(items: seq<TreeItem>)
  datatype TreeItem = Leaf(name: Path, mode: Mode, sha: ObjectId)
                    | SubTree(name: Path, mode: Mode, sha: ObjectId, tree: Tree)

  /** `tree_entry_iterator(store, treeid, base)`: every item in order, each
      directory followed at once by its own entries, paths joined onto `base`
      (an empty base leaves names as they are). */
  function TreeEntries(t: Tree, base: Path): (r: seq<Entry>)
    ensures forall k :: 0 <= k < |r| ==> r[k].path.Some? && r[k].mode.Some? && r[k].sha.Some?
    decreases t, 1
  {
    ItemsEntries(t.items, base)
  }

  function ItemsEntries(items: seq<TreeItem>, base: Path): (r: seq<Entry>)
    ensures forall k :: 0 <= k < |r| ==> r[k].path.Some? && r[k].mode.Some? && r[k].sha.Some?
    decreases items, 0
  {
    if items == [] then []
    else ItemEntries(items[0], base) + ItemsEntries(items[1..], base)
  }

  function ItemEntries(it: TreeItem, base: Path): (r: seq<Entry>)
    ensures forall k :: 0 <= k < |r| ==> r[k].path.Some? && r[k].mode.Some? && r[k].sha.Some?
    decreases it
  {
    var name := if |base| > 0 then JoinPath(base, it.name) else it.name;
    [Entry(Some(name), Some(it.mode), Some(it.sha))]
      + (if IsDir(it.mode) && it.SubTree? then TreeEntries(it.tree, name) else [])
  }

  /** Git tree names are non-empty and contain no slash. */
  ghost predicate WellNamed(t: Tree)
  {
    forall i :: 0 <= i < |t.items| ==> ItemWellNamed(t.items[i])
  }

  ghost predicate ItemWellNamed(it: TreeItem)
  {
    && |it.name| > 0 && Slash !in it.name
    && (it.SubTree? ==> WellNamed(it.tree))
  }

  ghost predicate UnderBase(es: seq<Entry>, base: Path)
  {
    forall k :: 0 <= k < |es| ==>
      es[k].path.Some? && |es[k].path.value| > |base| && es[k].path.value[..|base| + 1] == base + [Slash]
  }

  /** Below a directory, every entry the iterator yields has a path that
      starts with the directory's path and a slash. */
  lemma {:induction false} TreeEntriesUnderBase(t: Tree, base: Path)
    requires WellNamed(t) && |base| > 0 && base[|base| - 1] != Slash
    ensures UnderBase(TreeEntries(t, base), base)
    decreases t, 1
  {
    ItemsEntriesUnderBase(t.items, base);
  }

  lemma {:induction false} ItemsEntriesUnderBase(items: seq<TreeItem>, base: Path)
    requires forall i :: 0 <= i < |items| ==> ItemWellNamed(items[i])
    requires |base| > 0 && base[|base| - 1] != Slash
    ensures UnderBase(ItemsEntries(items, base), base)
    decreases items, 0
  {
    if items != [] {
      ItemEntriesUnderBase(items[0], base);
      ItemsEntriesUnderBase(items[1..], base);
    }
  }

  lemma {:induction false} ItemEntriesUnderBase(it: TreeItem, base: Path)
    requires ItemWellNamed(it) && |base| > 0 && base[|base| - 1] != Slash
    ensures UnderBase(ItemEntries(it, base), base)
    decreases it
  {
    var name := JoinPath(base, it.name);
    assert name == base + [Slash] + it.name;
    if IsDir(it.mode) && it.SubTree? {
      assert name[|name| - 1] == it.name[|it.name| - 1];
      assert name[|name| - 1] != Slash by {
        assert it.name[|it.name| - 1] in it.name;
      }
      TreeEntriesUnderBase(it.tree, name);
      var sub := TreeEntries(it.tree, name);
      forall k | 0 <= k < |sub|
        ensures |sub[k].path.value| > |base| && sub[k].path.value[..|base| + 1] == base + [Slash]
      {
        var p := sub[k].path.value;
        assert p[..|name| + 1] == name + [Slash];
        assert p[..|base| + 1] == p[..|name| + 1][..|base| + 1];
      }
    }
  }
}
