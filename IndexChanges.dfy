/** `changes_from_workingdir` of index_addl.py: the index entries are
    compared with the working copy through a lookup function, and the
    working-copy names no index entry consumed are reported as untracked. */
module IndexChanges {
  import opened Common
  import opened TreeTypes

  /** `lookup_entry(name)`: the sha and mode of a working-copy file, or
      `None` where it raises `KeyError`. */
  type Lookup = Path -> Option<(ObjectId, Mode)>

  /** One `(name, entry)` pair of `index.iteritems()`. */
  datatype IndexEntry = IndexEntry(name: Path, sha: ObjectId, mode: Mode)

  /** One yielded `((oldpath, newpath), (oldmode, newmode), (oldsha, newsha))`,
      as the old side (`before`) and the new side (`after`). */
  datatype Change = Change(before: Entry, after: Entry)

  const Nothing := Entry(None, None, None)

  function Indexed(e: IndexEntry): Entry
  {
    Entry(Some(e.name), Some(e.mode), Some(e.sha))
  }

  /** The tuple of an index entry whose file is gone. */
  function Removed(e: IndexEntry): Change
  {
    Change(Indexed(e), Nothing)
  }

  /** The tuple of an index entry whose file was found. */
  function Modified(e: IndexEntry, found: (ObjectId, Mode)): Change
  {
    Change(Indexed(e), Entry(Some(e.name), Some(found.1), Some(found.0)))
  }

  /** The tuple of a working-copy file the index does not hold. */
  function Added(name: Path, found: (ObjectId, Mode)): Change
  {
    Change(Nothing, Entry(Some(name), Some(found.1), Some(found.0)))
  }

  /** What one index entry contributes, leaving aside the bookkeeping of
      the names seen: the removal when the lookup fails, otherwise the
      modification when it is wanted or the sha or mode changed. */
  function EntryChange(e: IndexEntry, lookup: Lookup, wantUnchanged: bool): (r: Option<Change>)
    ensures lookup(e.name).None? ==> r == Some(Removed(e))
    ensures lookup(e.name).Some? ==>
              (r.Some? <==> wantUnchanged || lookup(e.name).value.0 != e.sha || lookup(e.name).value.1 != e.mode)
    ensures lookup(e.name).Some? && r.Some? ==> r.value == Modified(e, lookup(e.name).value)
  {
    match lookup(e.name)
    case None => Some(Removed(e))
    case Some(found) =>
      if wantUnchanged || found.0 != e.sha || found.1 != e.mode then Some(Modified(e, found)) else None
  }

  /** The contributions of the entries, in order. */
  function EntryChanges(entries: seq<IndexEntry>, lookup: Lookup, wantUnchanged: bool): (r: seq<Change>)
    ensures |r| <= |entries|
  {
    if entries == [] then []
    else
      var c := EntryChange(entries[|entries| - 1], lookup, wantUnchanged);
      EntryChanges(entries[..|entries| - 1], lookup, wantUnchanged) + (if c.Some? then [c.value] else [])
  }

  /** The names of the entries whose lookup succeeds. */
  function Found(entries: seq<IndexEntry>, lookup: Lookup): (r: set<Path>)
    ensures forall n :: n in r <==> exists k :: 0 <= k < |entries| && entries[k].name == n && lookup(n).Some?
  {
    if entries == [] then {}
    else
      var e := entries[|entries| - 1];
      Found(entries[..|entries| - 1], lookup) + (if lookup(e.name).Some? then {e.name} else {})
  }

  /** The state of the index loop: what it yielded, what is left of
      `other_names`, and the error that ended it, if any. */
  datatype Walk = Walk(items: seq<Change>, unseen: set<Path>, failure: Option<Failure>)

  /** The index loop run over `entries` from `other_names == names`. An
      entry whose lookup succeeds is removed from `other_names` before
      anything is yielded for it, and that `remove` raises when the name is
      not there. */
  function IndexPass(entries: seq<IndexEntry>, names: set<Path>, lookup: Lookup, wantUnchanged: bool): (r: Walk)
    ensures |r.items| <= |entries|
    ensures r.unseen <= names
    ensures r.failure.Some? ==> r.failure == Some(MissingSetMember)
    ensures names - r.unseen <= Found(entries, lookup)
  {
    if entries == [] then Walk([], names, None)
    else
      var w := IndexPass(entries[..|entries| - 1], names, lookup, wantUnchanged);
      var e := entries[|entries| - 1];
      if w.failure.Some? then w
      else if lookup(e.name).None? then Walk(w.items + [Removed(e)], w.unseen, None)
      else if e.name !in w.unseen then Walk(w.items, w.unseen, Some(MissingSetMember))
      else
        var c := EntryChange(e, lookup, wantUnchanged);
        Walk(w.items + (if c.Some? then [c.value] else []), w.unseen - {e.name}, None)
  }

  /** No two entries share a name, as in the index's dictionary. */
  predicate DistinctNames(entries: seq<IndexEntry>)
  {
    forall j, k :: 0 <= j < k < |entries| ==> entries[j].name != entries[k].name
  }

  /** Over an index with distinct names, the loop raises exactly when some
      index name is found by the lookup but is not a working-copy name;
      otherwise it yields each entry's contribution, in order, and leaves
      the names no found entry consumed. */
  lemma {:induction false} IndexPassSpec(entries: seq<IndexEntry>, names: set<Path>, lookup: Lookup, wantUnchanged: bool)
    requires DistinctNames(entries)
    ensures IndexPass(entries, names, lookup, wantUnchanged).failure.None? <==> Found(entries, lookup) <= names
    ensures IndexPass(entries, names, lookup, wantUnchanged).failure.None? ==>
              && IndexPass(entries, names, lookup, wantUnchanged).items == EntryChanges(entries, lookup, wantUnchanged)
              && IndexPass(entries, names, lookup, wantUnchanged).unseen == names - Found(entries, lookup)
    ensures IndexPass(entries, names, lookup, wantUnchanged).failure.Some? ==>
              IndexPass(entries, names, lookup, wantUnchanged).failure == Some(MissingSetMember)
  {
    if entries != [] {
      var init := entries[..|entries| - 1];
      var e := entries[|entries| - 1];
      assert DistinctNames(init) by {
        forall j, k | 0 <= j < k < |init| ensures init[j].name != init[k].name {
          assert init[j] == entries[j] && init[k] == entries[k];
        }
      }
      IndexPassSpec(init, names, lookup, wantUnchanged);
      assert e.name !in Found(init, lookup) by {
        forall k | 0 <= k < |init| ensures init[k].name != e.name {
          assert init[k] == entries[k];
        }
      }
      if IndexPass(init, names, lookup, wantUnchanged).failure.Some? {
        var n :| n in Found(init, lookup) && n !in names;
        assert n in Found(entries, lookup);
      }
    }
  }

  /** Index changes have an old path; untracked ones do not. */
  predicate FromIndex(c: Change) { c.before.path.Some? }

  /** The untracked tuples: one per name of `unseen` that the lookup finds,
      each name once, and nothing else. */
  ghost predicate UntrackedOf(us: seq<Change>, unseen: set<Path>, lookup: Lookup)
  {
    && (forall k :: 0 <= k < |us| ==>
          && us[k].after.path.Some? && us[k].after.path.value in unseen
          && lookup(us[k].after.path.value).Some?
          && us[k] == Added(us[k].after.path.value, lookup(us[k].after.path.value).value))
    && (forall n :: n in unseen && lookup(n).Some? ==> exists k :: 0 <= k < |us| && us[k].after.path == Some(n))
    && (forall j, k :: 0 <= j < k < |us| ==> us[j].after.path != us[k].after.path)
  }

  /** `index.iteritems()`, or nothing when there is no index. */
  function EntriesOf(index: Option<seq<IndexEntry>>): seq<IndexEntry>
  {
    if index.None? then [] else index.value
  }

  /** `changes_from_workingdir(names, lookup_entry, object_store, index,
      want_unchanged)`, drained: the index loop as `IndexPass` describes
      it, then, unless it raised, the untracked names in the order the set
      gives them (which is not fixed). */
  method ChangesFromWorkingdir(names: seq<Path>, lookup: Lookup, index: Option<seq<IndexEntry>>, wantUnchanged: bool)
    returns (r: Stream<Change>)
    ensures var w := IndexPass(EntriesOf(index), Elements(names), lookup, wantUnchanged);
            && |w.items| <= |r.items| && r.items[..|w.items|] == w.items
            && r.failure == w.failure
            && (w.failure.Some? ==> r.items == w.items)
            && (w.failure.None? ==> UntrackedOf(r.items[|w.items|..], w.unseen, lookup))
    ensures forall j, k :: 0 <= j < k < |r.items| && FromIndex(r.items[k]) ==> FromIndex(r.items[j])
  {
    var otherNames := set n | n in names;
    assert otherNames == Elements(names);
    var w := IndexLoop(EntriesOf(index), otherNames, lookup, wantUnchanged);
    IndexItemsIndexed(EntriesOf(index), Elements(names), lookup, wantUnchanged);
    if w.failure.Some? {
      return Stream(w.items, w.failure);
    }
    var us := UntrackedLoop(w.unseen, lookup);
    r := Stream(w.items + us, None);
    assert r.items[..|w.items|] == w.items && r.items[|w.items|..] == us;
  }

  /** The `for name, entry in index.iteritems()` loop, removing each found
      name from `other_names`. */
  method IndexLoop(entries: seq<IndexEntry>, names: set<Path>, lookup: Lookup, wantUnchanged: bool) returns (w: Walk)
    ensures w == IndexPass(entries, names, lookup, wantUnchanged)
  {
    var otherNames := names;
    var items: seq<Change> := [];
    var i := 0;
    while i < |entries|
      invariant 0 <= i <= |entries|
      invariant IndexPass(entries[..i], names, lookup, wantUnchanged) == Walk(items, otherNames, None)
    {
      assert entries[..i + 1][..i] == entries[..i];
      var e := entries[i];
      match lookup(e.name) {
        case None =>
          items := items + [Removed(e)];
        case Some(found) =>
          if e.name !in otherNames {
            TailNoop(entries, i + 1, names, lookup, wantUnchanged);
            return Walk(items, otherNames, Some(MissingSetMember));
          }
          otherNames := otherNames - {e.name};
          if wantUnchanged || found.0 != e.sha || found.1 != e.mode {
            items := items + [Modified(e, found)];
          }
      }
      i := i + 1;
    }
    assert entries[..i] == entries;
    return Walk(items, otherNames, None);
  }

  /** The `for name in other_names` loop: a tuple for each remaining name
      the lookup finds, in the set's order. */
  method UntrackedLoop(unseen: set<Path>, lookup: Lookup) returns (us: seq<Change>)
    ensures UntrackedOf(us, unseen, lookup)
    ensures forall k :: 0 <= k < |us| ==> !FromIndex(us[k])
  {
    us := [];
    var rest := unseen;
    while rest != {}
      invariant rest <= unseen
      invariant UntrackedOf(us, unseen - rest, lookup)
      invariant forall k :: 0 <= k < |us| ==> !FromIndex(us[k])
      decreases |rest|
    {
      var n :| n in rest;
      UntrackedStep(us, unseen - rest, lookup, n);
      assert unseen - (rest - {n}) == (unseen - rest) + {n};
      rest := rest - {n};
      match lookup(n) {
        case None =>
        case Some(found) =>
          us := us + [Added(n, found)];
      }
    }
  }

  /** Visiting one more name keeps `UntrackedOf`. */
  lemma UntrackedStep(us: seq<Change>, seen: set<Path>, lookup: Lookup, n: Path)
    requires UntrackedOf(us, seen, lookup) && n !in seen
    ensures UntrackedOf(us + (if lookup(n).Some? then [Added(n, lookup(n).value)] else []), seen + {n}, lookup)
  {
    var us' := us + (if lookup(n).Some? then [Added(n, lookup(n).value)] else []);
    forall m | m in seen + {n} && lookup(m).Some?
      ensures exists k :: 0 <= k < |us'| && us'[k].after.path == Some(m)
    {
      if m == n {
        assert us'[|us'| - 1].after.path == Some(m);
      } else {
        var k :| 0 <= k < |us| && us[k].after.path == Some(m);
        assert us'[k] == us[k];
      }
    }
  }

  /** Every tuple of the index loop comes from an index entry. */
  lemma {:induction false} IndexItemsIndexed(entries: seq<IndexEntry>, names: set<Path>, lookup: Lookup, wantUnchanged: bool)
    ensures forall k :: 0 <= k < |IndexPass(entries, names, lookup, wantUnchanged).items| ==>
              FromIndex(IndexPass(entries, names, lookup, wantUnchanged).items[k])
  {
    if entries != [] {
      IndexItemsIndexed(entries[..|entries| - 1], names, lookup, wantUnchanged);
    }
  }

  /** Once the index loop has raised, later entries change nothing. */
  lemma {:induction false} TailNoop(entries: seq<IndexEntry>, i: nat, names: set<Path>, lookup: Lookup, wantUnchanged: bool)
    requires i <= |entries|
    requires IndexPass(entries[..i], names, lookup, wantUnchanged).failure.Some?
    ensures IndexPass(entries, names, lookup, wantUnchanged) == IndexPass(entries[..i], names, lookup, wantUnchanged)
    decreases |entries| - i
  {
    if i < |entries| {
      assert entries[..i + 1][..i] == entries[..i];
      TailNoop(entries, i + 1, names, lookup, wantUnchanged);
    } else {
      assert entries[..i] == entries;
    }
  }
}
