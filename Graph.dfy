/** Merge-base resolution (graph_fixed.py): the lowest-common-ancestor walk over
    the commit graph, and the three entry points built on it. The object store's
    answers (a commit's parents, its commit time) are the finite maps of a
    `CommitGraph`. */
module Graph {
  import opened Common

  /** The bit flags `_ANC_OF_1`, `_ANC_OF_2`, `_DNC` and `_LCA`; a commit's flag
      word is the set of flags that are on, so `|` is union and
      `(p & c) == c` is `c <= p`. */
  datatype Flag = AncOf1 | AncOf2 | Dnc | Lca

  const AncestryFlags: set<Flag> := {AncOf1, AncOf2, Dnc}

  /** A commit id: an opaque token, compared only for equality. */
  type CommitId = nat

  /** What the object store answers about commits: parents in order, and the
      commit time used as the stamp. */
  datatype CommitGraph = CommitGraph(parents: map<CommitId, seq<CommitId>>, stamp: map<CommitId, int>)

  /** Every commit the store knows has a stamp, and every parent is known. */
  ghost predicate Closed(g: CommitGraph)
  {
    && g.parents.Keys == g.stamp.Keys
    && forall c, i :: c in g.parents && 0 <= i < |g.parents[c]| ==> g.parents[c][i] in g.parents
  }

  /** A walk from a commit down through parent links. */
  ghost predicate IsWalk(g: CommitGraph, w: seq<CommitId>)
  {
    && |w| >= 1
    && (forall i :: 0 <= i < |w| ==> w[i] in g.parents)
    && (forall i :: 0 <= i < |w| - 1 ==> w[i + 1] in g.parents[w[i]])
  }

  /** `a` is `d` or one of its ancestors. */
  ghost predicate IsAncestor(g: CommitGraph, a: CommitId, d: CommitId)
  {
    exists w :: IsWalk(g, w) && w[0] == d && w[|w| - 1] == a
  }

  /** `a` is an ancestor of at least one of `ds`. */
  ghost predicate IsAncestorOfSome(g: CommitGraph, a: CommitId, ds: seq<CommitId>)
  {
    exists j :: 0 <= j < |ds| && IsAncestor(g, a, ds[j])
  }

  lemma AncestorRefl(g: CommitGraph, c: CommitId)
    requires c in g.parents
    ensures IsAncestor(g, c, c)
  {
    assert IsWalk(g, [c]);
  }

  lemma AncestorStep(g: CommitGraph, a: CommitId, d: CommitId, p: CommitId)
    requires Closed(g) && IsAncestor(g, a, d) && a in g.parents && p in g.parents[a]
    ensures IsAncestor(g, p, d)
  {
    var w :| IsWalk(g, w) && w[0] == d && w[|w| - 1] == a;
    var i :| 0 <= i < |g.parents[a]| && g.parents[a][i] == p;
    var w' := w + [p];
    assert IsWalk(g, w');
  }

  lemma AncestorTrans(g: CommitGraph, a: CommitId, b: CommitId, c: CommitId)
    requires IsAncestor(g, a, b) && IsAncestor(g, b, c)
    ensures IsAncestor(g, a, c)
  {
    var u :| IsWalk(g, u) && u[0] == b && u[|u| - 1] == a;
    var v :| IsWalk(g, v) && v[0] == c && v[|v| - 1] == b;
    var w := v + u[1..];
    forall i | 0 <= i < |w| - 1
      ensures w[i + 1] in g.parents[w[i]]
    {
      if i < |v| - 1 {
      } else {
        assert w[i] == u[i - |v| + 1];
      }
    }
    assert IsWalk(g, w);
  }


  /** `a` lies strictly below `d`: it is an ancestor of one of `d`'s parents. */
  ghost predicate ProperAncestor(g: CommitGraph, a: CommitId, d: CommitId)
  {
    d in g.parents && exists p :: p in g.parents[d] && IsAncestor(g, a, p)
  }

  /** No commit lies strictly below itself. */
  ghost predicate Acyclic(g: CommitGraph)
  {
    forall c :: !ProperAncestor(g, c, c)
  }

  /** No commit of the store is older than `minStamp`, so the walk is never cut. */
  ghost predicate AllAbove(g: CommitGraph, minStamp: int)
  {
    forall c :: c in g.stamp ==> g.stamp[c] >= minStamp
  }

  /** Every common ancestor of `c1` and one of `c2s` lies at or below one of `lcas`. */
  ghost predicate Covers(g: CommitGraph, c1: CommitId, c2s: seq<CommitId>, lcas: seq<CommitId>)
  {
    forall x :: IsAncestor(g, x, c1) && IsAncestorOfSome(g, x, c2s) ==> exists l :: l in lcas && IsAncestor(g, x, l)
  }

  lemma ParentIsProper(g: CommitGraph, p: CommitId, d: CommitId)
    requires Closed(g) && d in g.parents && p in g.parents[d]
    ensures ProperAncestor(g, p, d)
  {
    var i :| 0 <= i < |g.parents[d]| && g.parents[d][i] == p;
    AncestorRefl(g, p);
  }

  lemma ProperIsAncestor(g: CommitGraph, a: CommitId, d: CommitId)
    requires Closed(g) && ProperAncestor(g, a, d)
    ensures IsAncestor(g, a, d)
  {
    var p :| p in g.parents[d] && IsAncestor(g, a, p);
    var i :| 0 <= i < |g.parents[d]| && g.parents[d][i] == p;
    assert IsWalk(g, [d, p]);
    AncestorTrans(g, a, p, d);
  }

  lemma ProperBelow(g: CommitGraph, a: CommitId, b: CommitId, c: CommitId)
    requires IsAncestor(g, a, b) && ProperAncestor(g, b, c)
    ensures ProperAncestor(g, a, c)
  {
    var p :| p in g.parents[c] && IsAncestor(g, b, p);
    AncestorTrans(g, a, b, p);
  }

  lemma ProperTrans(g: CommitGraph, a: CommitId, b: CommitId, c: CommitId)
    requires Closed(g) && ProperAncestor(g, a, b) && ProperAncestor(g, b, c)
    ensures ProperAncestor(g, a, c)
  {
    ProperIsAncestor(g, a, b);
    ProperBelow(g, a, b, c);
  }

  /** In an acyclic graph, among the members of `s` that have `x` at or
      below them (if any), one is not strictly below any other. */
  lemma {:induction false} MaximalAbove(g: CommitGraph, x: CommitId, s: seq<CommitId>) returns (m: CommitId)
    requires Closed(g) && Acyclic(g)
    requires exists d :: d in s && IsAncestor(g, x, d)
    ensures m in s && IsAncestor(g, x, m)
    ensures forall d :: d in s && IsAncestor(g, x, d) ==> !ProperAncestor(g, m, d)
  {
    var init, last := s[..|s| - 1], s[|s| - 1];
    assert s == init + [last];
    if exists d :: d in init && IsAncestor(g, x, d) {
      var m' := MaximalAbove(g, x, init);
      if IsAncestor(g, x, last) && ProperAncestor(g, m', last) {
        m := last;
        forall d | d in s && IsAncestor(g, x, d)
          ensures !ProperAncestor(g, m, d)
        {
          if ProperAncestor(g, last, d) {
            assert d != last;
            ProperTrans(g, m', last, d);
          }
        }
      } else {
        m := m';
      }
    } else {
      m := last;
    }
  }

  /** A worklist entry `(commit_time, commit)`. */
  type Stamped = (int, CommitId)

  /** The position `plist_get` picks: the first entry with the greatest stamp,
      since only a strictly greater stamp replaces the current pick. */
  function Newest(lst: seq<Stamped>): (k: nat)
    requires |lst| > 0
    ensures k < |lst|
    ensures forall j :: 0 <= j < |lst| ==> lst[j].0 <= lst[k].0
    ensures forall j :: 0 <= j < k ==> lst[j].0 < lst[k].0
    decreases |lst|
  {
    if |lst| == 1 then 0
    else
      var k := Newest(lst[..|lst| - 1]);
      if lst[|lst| - 1].0 > lst[k].0 then |lst| - 1 else k
  }

  /** `plist_get`: remove and return the entry at `Newest(lst)`; `i` is the
      position that was removed. */
  method PListGet(lst: seq<Stamped>) returns (item: Stamped, rest: seq<Stamped>, ghost i: nat)
    requires |lst| > 0
    ensures i == Newest(lst) && item == lst[i]
    ensures rest == lst[..i] + lst[i + 1..]
    ensures |rest| == |lst| - 1
  {
    var mdt := lst[0].0;
    var k := 0;
    var j := 1;
    while j < |lst|
      invariant 1 <= j <= |lst|
      invariant k == Newest(lst[..j]) && mdt == lst[k].0
    {
      assert lst[..j + 1][..j] == lst[..j];
      if lst[j].0 > mdt {
        mdt := lst[j].0;
        k := j;
      }
      j := j + 1;
    }
    assert lst[..j] == lst;
    item, rest, i := lst[k], lst[..k] + lst[k + 1..], k;
  }

  /** `cstates.get(c, 0)`: the flags of `c`, none when it was never reached. */
  function Flags(cstates: map<CommitId, set<Flag>>, c: CommitId): set<Flag>
  {
    if c in cstates then cstates[c] else {}
  }

  /** Some worklist entry is for `c`. */
  ghost predicate Pending(c: CommitId, wlst: seq<Stamped>)
  {
    exists e :: e in wlst && e.1 == c
  }

  /** `_has_candidates`: some worklist entry is known and not marked `_DNC`. */
  method HasCandidates(wlst: seq<Stamped>, cstates: map<CommitId, set<Flag>>) returns (b: bool)
    ensures b <==> exists e :: e in wlst && e.1 in cstates && Dnc !in cstates[e.1]
  {
    var k := 0;
    while k < |wlst|
      invariant 0 <= k <= |wlst|
      invariant forall m :: 0 <= m < k ==> !(wlst[m].1 in cstates && Dnc !in cstates[wlst[m].1])
    {
      var cmt := wlst[k].1;
      if cmt in cstates && Dnc !in cstates[cmt] {
        return true;
      }
      k := k + 1;
    }
    return false;
  }
  /** The (commit, flag) pairs still missing from the state map; it only
      shrinks, which bounds the walk. */
  ghost function Missing(g: CommitGraph, cstates: map<CommitId, set<Flag>>): set<(CommitId, Flag)>
  {
    set c, f | c in g.parents.Keys && f in AncestryFlags && (c !in cstates || f !in cstates[c]) :: (c, f)
  }

  lemma ProperSubsetCard<T>(a: set<T>, b: set<T>)
    requires a < b
    ensures |a| < |b|
  {
    var d := b - a;
    assert b == a + d && a * d == {};
    assert d != {};
  }

  /** Adding a flag that a commit lacked strictly shrinks `Missing`. */
  lemma MarkShrinks(g: CommitGraph, cstates: map<CommitId, set<Flag>>, p: CommitId, pflags: set<Flag>, cflags: set<Flag>)
    requires p in g.parents && cflags <= AncestryFlags && !(cflags <= pflags)
    requires pflags == (if p in cstates then cstates[p] else {})
    ensures |Missing(g, cstates[p := pflags + cflags])| < |Missing(g, cstates)|
  {
    var f :| f in cflags && f !in pflags;
    var before := Missing(g, cstates);
    var after := Missing(g, cstates[p := pflags + cflags]);
    assert (p, f) in before && (p, f) !in after;
    assert after <= before;
    ProperSubsetCard(after, before);
  }

  /** `_LCA` is not an ancestry flag, so setting it leaves `Missing` alone. */
  lemma MarkLcaKeepsMissing(g: CommitGraph, cstates: map<CommitId, set<Flag>>, c: CommitId)
    requires c in cstates
    ensures Missing(g, cstates[c := cstates[c] + {Lca}]) == Missing(g, cstates)
  {
  }

  ghost predicate SortedByStamp(xs: seq<Stamped>)
  {
    forall i, j :: 0 <= i < j < |xs| ==> xs[i].0 <= xs[j].0
  }

  /** Stable insertion: `x` goes before the first entry with an equal or larger
      stamp, so it precedes entries it ties with. */
  function InsertByStamp(x: Stamped, s: seq<Stamped>): seq<Stamped>
  {
    if s == [] || x.0 <= s[0].0 then [x] + s else [s[0]] + InsertByStamp(x, s[1..])
  }

  /** Insertion adds exactly `x`. */
  lemma {:induction false} InsertByStampPerm(x: Stamped, s: seq<Stamped>)
    ensures multiset(InsertByStamp(x, s)) == multiset(s) + multiset{x}
    ensures forall e :: e in InsertByStamp(x, s) <==> e == x || e in s
  {
    if s != [] && s[0].0 < x.0 {
      assert s == [s[0]] + s[1..];
      InsertByStampPerm(x, s[1..]);
    }
  }

  /** Insertion into a list sorted by stamp keeps it sorted. */
  lemma {:induction false} InsertByStampSorted(x: Stamped, s: seq<Stamped>)
    requires SortedByStamp(s)
    ensures SortedByStamp(InsertByStamp(x, s))
  {
    if s == [] || x.0 <= s[0].0 {
      forall i, j | 0 <= i < j < |s| + 1
        ensures ([x] + s)[i].0 <= ([x] + s)[j].0
      {
        assert ([x] + s)[j] == s[j - 1];
        if i > 0 {
          assert ([x] + s)[i] == s[i - 1];
        }
      }
    } else {
      InsertByStampSorted(x, s[1..]);
      InsertByStampPerm(x, s[1..]);
      var t := InsertByStamp(x, s[1..]);
      forall i, j | 0 <= i < j < |t| + 1
        ensures ([s[0]] + t)[i].0 <= ([s[0]] + t)[j].0
      {
        assert ([s[0]] + t)[j] == t[j - 1];
        if i > 0 {
          assert ([s[0]] + t)[i] == t[i - 1];
        } else if t[j - 1] != x {
          assert t[j - 1] in t;
          var m :| 0 <= m < |s[1..]| && s[1..][m] == t[j - 1];
          assert s[m + 1] == t[j - 1];
        }
      }
    }
  }

  /** `results.sort(key=lambda x: x[0])`: a stable sort by stamp, which
      orders the entries by ascending stamp and keeps exactly the same ones. */
  function SortByStamp(xs: seq<Stamped>): (r: seq<Stamped>)
    ensures SortedByStamp(r)
    ensures multiset(r) == multiset(xs)
  {
    if xs == [] then []
    else
      var rest := SortByStamp(xs[1..]);
      InsertByStampSorted(xs[0], rest);
      InsertByStampPerm(xs[0], rest);
      assert xs == [xs[0]] + xs[1..];
      InsertByStamp(xs[0], rest)
  }

  ghost predicate DistinctCommits(xs: seq<Stamped>)
  {
    forall i, j :: 0 <= i < j < |xs| ==> xs[i].1 != xs[j].1
  }

  lemma {:induction false} InsertByStampDistinct(x: Stamped, s: seq<Stamped>)
    requires DistinctCommits(s) && forall e :: e in s ==> e.1 != x.1
    ensures DistinctCommits(InsertByStamp(x, s))
  {
    if s == [] || x.0 <= s[0].0 {
      forall j | 1 <= j < |s| + 1 ensures ([x] + s)[j].1 != x.1 {
        assert ([x] + s)[j] == s[j - 1];
      }
    } else {
      InsertByStampDistinct(x, s[1..]);
      InsertByStampPerm(x, s[1..]);
      var t := InsertByStamp(x, s[1..]);
      forall k | 0 <= k < |t|
        ensures s[0].1 != t[k].1
      {
        assert t[k] in t;
        if t[k] != x {
          var m :| 0 <= m < |s[1..]| && s[1..][m] == t[k];
          assert s[m + 1] == t[k];
        }
      }
    }
  }

  /** Sorting keeps the entries, and so keeps their commits distinct. */
  lemma {:induction false} SortByStampDistinct(xs: seq<Stamped>)
    requires DistinctCommits(xs)
    ensures DistinctCommits(SortByStamp(xs))
    ensures forall e :: e in SortByStamp(xs) <==> e in xs
  {
    if xs != [] {
      assert xs == [xs[0]] + xs[1..];
      SortByStampDistinct(xs[1..]);
      InsertByStampPerm(xs[0], SortByStamp(xs[1..]));
      InsertByStampDistinct(xs[0], SortByStamp(xs[1..]));
    }
  }

  /** The state invariant of the walk: flags record genuine ancestry, worklist
      entries carry their commit's stamp, candidates are exactly the commits
      flagged `_LCA`, and nothing below `minStamp` was ever reached except the
      starting commits. */
  ghost predicate WalkInv(g: CommitGraph, c1: CommitId, c2s: seq<CommitId>, minStamp: int,
                          cstates: map<CommitId, set<Flag>>, wlst: seq<Stamped>, cands: seq<Stamped>)
  {
    && FlagsInv(g, c1, c2s, minStamp, cstates, cands)
    && (forall e :: e in wlst ==> e.1 in cstates && e.0 == g.stamp[e.1])
    && (forall c :: c in cstates && Lca in cstates[c] ==> exists e :: e in cands && e.1 == c)
  }

  /** The part of `WalkInv` the final pass relies on: what the flags and the
      candidates record. */
  ghost predicate FlagsInv(g: CommitGraph, c1: CommitId, c2s: seq<CommitId>, minStamp: int,
                           cstates: map<CommitId, set<Flag>>, cands: seq<Stamped>)
  {
    && Closed(g)
    && cstates.Keys <= g.parents.Keys
    && (forall c :: c in cstates && AncOf1 in cstates[c] ==> IsAncestor(g, c, c1))
    && (forall c :: c in cstates && AncOf2 in cstates[c] ==> IsAncestorOfSome(g, c, c2s))
    && (forall c :: c in cstates ==> c == c1 || c in c2s || g.stamp[c] >= minStamp)
    && (forall e :: e in cands ==> e.1 in cstates && {AncOf1, AncOf2, Lca} <= cstates[e.1] && e.0 == g.stamp[e.1])
    && DistinctCommits(cands)
  }

  /** Whether the parent loop flags and queues `p`: it lacks one of `cflags`
      and is not older than `minStamp`. */
  ghost predicate Eligible(g: CommitGraph, minStamp: int, cstates: map<CommitId, set<Flag>>, p: CommitId, cflags: set<Flag>)
    requires p in g.stamp
  {
    !(cflags <= Flags(cstates, p)) && g.stamp[p] >= minStamp
  }

  /** The state map after the parent loop over `ps`: every eligible parent
      gains `cflags` (a parent listed twice gains them once). */
  ghost function QueueState(g: CommitGraph, minStamp: int, cstates: map<CommitId, set<Flag>>,
                            ps: seq<CommitId>, cflags: set<Flag>): map<CommitId, set<Flag>>
    requires forall p :: p in ps ==> p in g.stamp
  {
    cstates + map p | p in ps && Eligible(g, minStamp, cstates, p, cflags) :: Flags(cstates, p) + cflags
  }

  /** The entries the parent loop over `ps` appends: each eligible parent once,
      at its first position. */
  ghost function Queued(g: CommitGraph, minStamp: int, cstates: map<CommitId, set<Flag>>,
                        ps: seq<CommitId>, cflags: set<Flag>): seq<Stamped>
    requires forall p :: p in ps ==> p in g.stamp
    decreases |ps|
  {
    if ps == [] then []
    else
      var init, p := ps[..|ps| - 1], ps[|ps| - 1];
      Queued(g, minStamp, cstates, init, cflags)
        + (if Eligible(g, minStamp, cstates, p, cflags) && p !in init then [(g.stamp[p], p)] else [])
  }

  /** One more parent: it is flagged and queued exactly when it is eligible
      and was not already handled. */
  lemma QueueStateSnoc(g: CommitGraph, minStamp: int, cstates: map<CommitId, set<Flag>>,
                       ps: seq<CommitId>, p: CommitId, cflags: set<Flag>)
    requires (forall q :: q in ps ==> q in g.stamp) && p in g.stamp
    ensures Flags(QueueState(g, minStamp, cstates, ps, cflags), p)
            == if p in ps && Eligible(g, minStamp, cstates, p, cflags) then Flags(cstates, p) + cflags else Flags(cstates, p)
    ensures QueueState(g, minStamp, cstates, ps + [p], cflags)
            == if Eligible(g, minStamp, cstates, p, cflags) && p !in ps
               then QueueState(g, minStamp, cstates, ps, cflags)[p := Flags(cstates, p) + cflags]
               else QueueState(g, minStamp, cstates, ps, cflags)
  {
  }

  lemma QueuedSnoc(g: CommitGraph, minStamp: int, cstates: map<CommitId, set<Flag>>,
                   ps: seq<CommitId>, p: CommitId, cflags: set<Flag>)
    requires (forall q :: q in ps ==> q in g.stamp) && p in g.stamp
    ensures Queued(g, minStamp, cstates, ps + [p], cflags)
            == Queued(g, minStamp, cstates, ps, cflags)
               + (if Eligible(g, minStamp, cstates, p, cflags) && p !in ps then [(g.stamp[p], p)] else [])
  {
    assert (ps + [p])[..|ps|] == ps;
  }

  /** The parent loop's step from position `n` to `n + 1`. */
  lemma QueueStep(g: CommitGraph, minStamp: int, cstates: map<CommitId, set<Flag>>,
                  ps: seq<CommitId>, n: nat, cflags: set<Flag>)
    requires (forall q :: q in ps ==> q in g.stamp) && n < |ps|
    ensures Flags(QueueState(g, minStamp, cstates, ps[..n], cflags), ps[n])
            == if ps[n] in ps[..n] && Eligible(g, minStamp, cstates, ps[n], cflags) then Flags(cstates, ps[n]) + cflags else Flags(cstates, ps[n])
    ensures QueueState(g, minStamp, cstates, ps[..n + 1], cflags)
            == if Eligible(g, minStamp, cstates, ps[n], cflags) && ps[n] !in ps[..n]
               then QueueState(g, minStamp, cstates, ps[..n], cflags)[ps[n] := Flags(cstates, ps[n]) + cflags]
               else QueueState(g, minStamp, cstates, ps[..n], cflags)
    ensures Queued(g, minStamp, cstates, ps[..n + 1], cflags)
            == Queued(g, minStamp, cstates, ps[..n], cflags)
               + (if Eligible(g, minStamp, cstates, ps[n], cflags) && ps[n] !in ps[..n] then [(g.stamp[ps[n]], ps[n])] else [])
  {
    assert ps[..n + 1] == ps[..n] + [ps[n]];
    QueueStateSnoc(g, minStamp, cstates, ps[..n], ps[n], cflags);
    QueuedSnoc(g, minStamp, cstates, ps[..n], ps[n], cflags);
  }

  lemma {:induction false} QueuedEntries(g: CommitGraph, minStamp: int, cstates: map<CommitId, set<Flag>>,
                                         ps: seq<CommitId>, cflags: set<Flag>)
    requires forall p :: p in ps ==> p in g.stamp
    ensures forall e :: e in Queued(g, minStamp, cstates, ps, cflags) ==>
              e.1 in ps && e.0 == g.stamp[e.1] && Eligible(g, minStamp, cstates, e.1, cflags)
    ensures forall p :: p in ps && Eligible(g, minStamp, cstates, p, cflags) ==> Pending(p, Queued(g, minStamp, cstates, ps, cflags))
    decreases |ps|
  {
    if ps != [] {
      var init, p := ps[..|ps| - 1], ps[|ps| - 1];
      assert ps == init + [p];
      QueuedEntries(g, minStamp, cstates, init, cflags);
      var q := Queued(g, minStamp, cstates, ps, cflags);
      forall r | r in ps && Eligible(g, minStamp, cstates, r, cflags)
        ensures Pending(r, q)
      {
        if r in init {
          var e :| e in Queued(g, minStamp, cstates, init, cflags) && e.1 == r;
          assert e in q;
        } else {
          assert (g.stamp[p], p) in q;
        }
      }
    }
  }

  /** The parent loop changes the flags of parents only, and only by adding
      `cflags`. */
  lemma QueueOnlyParents(g: CommitGraph, minStamp: int, cstates: map<CommitId, set<Flag>>,
                         ps: seq<CommitId>, cflags: set<Flag>)
    requires forall p :: p in ps ==> p in g.stamp
    ensures forall c :: Flags(QueueState(g, minStamp, cstates, ps, cflags), c) == Flags(cstates, c)
                        || (c in ps && Flags(QueueState(g, minStamp, cstates, ps, cflags), c) == Flags(cstates, c) + cflags)
  {
  }

  /** What the parent loop does to the state: flags only grow; a commit whose
      flags change gains exactly `cflags` and is queued; every parent not older
      than `minStamp` ends up with `cflags`; queued entries are stamped parents. */
  lemma QueueFacts(g: CommitGraph, minStamp: int, cstates: map<CommitId, set<Flag>>,
                   ps: seq<CommitId>, cflags: set<Flag>)
    requires forall p :: p in ps ==> p in g.stamp
    ensures forall c :: Flags(cstates, c) <= Flags(QueueState(g, minStamp, cstates, ps, cflags), c)
    ensures forall c :: Flags(QueueState(g, minStamp, cstates, ps, cflags), c) == Flags(cstates, c)
                        || (Flags(QueueState(g, minStamp, cstates, ps, cflags), c) == Flags(cstates, c) + cflags
                            && Pending(c, Queued(g, minStamp, cstates, ps, cflags)))
    ensures forall p :: p in ps && g.stamp[p] >= minStamp ==> cflags <= Flags(QueueState(g, minStamp, cstates, ps, cflags), p)
    ensures forall e :: e in Queued(g, minStamp, cstates, ps, cflags) ==> e.1 in ps && e.0 == g.stamp[e.1]
  {
    QueuedEntries(g, minStamp, cstates, ps, cflags);
  }

  /** The `for pcmt in parents` loop of `_find_lcas`: each parent that lacks one
      of `cflags` and is not older than `minStamp` gets them and is queued.
      Flags only grow, and a queued parent strictly shrinks `Missing`. */
  method QueueParents(g: CommitGraph, c1: CommitId, c2s: seq<CommitId>, minStamp: int,
                      cstates: map<CommitId, set<Flag>>, wlst: seq<Stamped>, ghost cands: seq<Stamped>,
                      cmt: CommitId, cflags: set<Flag>)
    returns (cstates': map<CommitId, set<Flag>>, wlst': seq<Stamped>)
    requires WalkInv(g, c1, c2s, minStamp, cstates, wlst, cands)
    requires cmt in cstates && cflags <= AncestryFlags
    requires AncOf1 in cflags ==> IsAncestor(g, cmt, c1)
    requires AncOf2 in cflags ==> IsAncestorOfSome(g, cmt, c2s)
    ensures cstates' == QueueState(g, minStamp, cstates, g.parents[cmt], cflags)
    ensures wlst' == wlst + Queued(g, minStamp, cstates, g.parents[cmt], cflags)
    ensures WalkInv(g, c1, c2s, minStamp, cstates', wlst', cands)
    ensures |Missing(g, cstates')| <= |Missing(g, cstates)|
    ensures |Missing(g, cstates')| < |Missing(g, cstates)| || wlst' == wlst
  {
    cstates', wlst' := cstates, wlst;
    var parents := g.parents[cmt];
    var n := 0;
    ghost var queued: seq<Stamped> := [];
    QueueStart(g, c1, c2s, minStamp, cstates, wlst, cands, cmt, cflags);
    while n < |parents|
      invariant 0 <= n <= |parents|
      invariant QueueLoop(g, c1, c2s, minStamp, cstates, wlst, cands, cmt, cflags, n, cstates', wlst', queued)
    {
      var pcmt := parents[n];
      var pflags := Flags(cstates', pcmt);
      var pdt := g.stamp[pcmt];
      QueueAdvance(g, c1, c2s, minStamp, cstates, wlst, cands, cmt, cflags, n, cstates', wlst', queued);
      if !(cflags <= pflags) && pdt >= minStamp {
        cstates' := cstates'[pcmt := pflags + cflags];
        wlst' := wlst' + [(pdt, pcmt)];
        queued := queued + [(pdt, pcmt)];
      }
      n := n + 1;
    }
    assert parents[..n] == parents;
  }

  /** The state of `QueueParents` after its first `n` parents. */
  ghost predicate QueueLoop(g: CommitGraph, c1: CommitId, c2s: seq<CommitId>, minStamp: int,
                            cstates: map<CommitId, set<Flag>>, wlst: seq<Stamped>, cands: seq<Stamped>,
                            cmt: CommitId, cflags: set<Flag>, n: nat,
                            cs: map<CommitId, set<Flag>>, ws: seq<Stamped>, queued: seq<Stamped>)
  {
    && cmt in g.parents && n <= |g.parents[cmt]| && (forall p :: p in g.parents[cmt] ==> p in g.stamp)
    && cs == QueueState(g, minStamp, cstates, g.parents[cmt][..n], cflags)
    && queued == Queued(g, minStamp, cstates, g.parents[cmt][..n], cflags) && ws == wlst + queued
    && WalkInv(g, c1, c2s, minStamp, cs, ws, cands)
    && |Missing(g, cs)| <= |Missing(g, cstates)|
    && (|Missing(g, cs)| < |Missing(g, cstates)| || ws == wlst)
  }

  lemma QueueStart(g: CommitGraph, c1: CommitId, c2s: seq<CommitId>, minStamp: int,
                   cstates: map<CommitId, set<Flag>>, wlst: seq<Stamped>, cands: seq<Stamped>,
                   cmt: CommitId, cflags: set<Flag>)
    requires WalkInv(g, c1, c2s, minStamp, cstates, wlst, cands) && cmt in cstates
    ensures QueueLoop(g, c1, c2s, minStamp, cstates, wlst, cands, cmt, cflags, 0, cstates, wlst, [])
  {
    assert g.parents[cmt][..0] == [];
    assert QueueState(g, minStamp, cstates, [], cflags) == cstates;
  }

  /** One parent of `QueueParents`: flag and queue it when it gains a flag
      and is not older than the bound. */
  lemma QueueAdvance(g: CommitGraph, c1: CommitId, c2s: seq<CommitId>, minStamp: int,
                     cstates: map<CommitId, set<Flag>>, wlst: seq<Stamped>, cands: seq<Stamped>,
                     cmt: CommitId, cflags: set<Flag>, n: nat,
                     cs: map<CommitId, set<Flag>>, ws: seq<Stamped>, queued: seq<Stamped>)
    requires WalkInv(g, c1, c2s, minStamp, cstates, wlst, cands)
    requires cflags <= AncestryFlags
    requires AncOf1 in cflags ==> IsAncestor(g, cmt, c1)
    requires AncOf2 in cflags ==> IsAncestorOfSome(g, cmt, c2s)
    requires QueueLoop(g, c1, c2s, minStamp, cstates, wlst, cands, cmt, cflags, n, cs, ws, queued)
    requires cmt in cstates && n < |g.parents[cmt]|
    ensures var p := g.parents[cmt][n];
            var take := !(cflags <= Flags(cs, p)) && g.stamp[p] >= minStamp;
            QueueLoop(g, c1, c2s, minStamp, cstates, wlst, cands, cmt, cflags, n + 1,
                      if take then cs[p := Flags(cs, p) + cflags] else cs,
                      if take then ws + [(g.stamp[p], p)] else ws,
                      if take then queued + [(g.stamp[p], p)] else queued)
  {
    var p := g.parents[cmt][n];
    var pflags := Flags(cs, p);
    QueueStep(g, minStamp, cstates, g.parents[cmt], n, cflags);
    if !(cflags <= pflags) && g.stamp[p] >= minStamp {
      MarkShrinks(g, cs, p, pflags, cflags);
      assert cmt in cs;
      MarkKeepsWalkInv(g, c1, c2s, minStamp, cs, ws, cands, cmt, cflags, p);
      SnocAfter(wlst, queued, (g.stamp[p], p));
    }
  }

  lemma SnocAfter(a: seq<Stamped>, b: seq<Stamped>, x: Stamped)
    ensures (a + b) + [x] == a + (b + [x])
  {
  }

  /** Flagging a parent of a flagged commit with some of that commit's
      ancestry flags, and queueing it, keeps the walk invariant. */
  lemma MarkKeepsWalkInv(g: CommitGraph, c1: CommitId, c2s: seq<CommitId>, minStamp: int,
                         cstates: map<CommitId, set<Flag>>, wlst: seq<Stamped>, cands: seq<Stamped>,
                         cmt: CommitId, cflags: set<Flag>, pcmt: CommitId)
    requires WalkInv(g, c1, c2s, minStamp, cstates, wlst, cands)
    requires cmt in cstates && pcmt in g.parents[cmt] && g.stamp[pcmt] >= minStamp && cflags <= AncestryFlags
    requires AncOf1 in cflags ==> IsAncestor(g, cmt, c1)
    requires AncOf2 in cflags ==> IsAncestorOfSome(g, cmt, c2s)
    ensures WalkInv(g, c1, c2s, minStamp,
                    cstates[pcmt := (if pcmt in cstates then cstates[pcmt] else {}) + cflags],
                    wlst + [(g.stamp[pcmt], pcmt)], cands)
  {
    if AncOf1 in cflags { AncestorStep(g, cmt, c1, pcmt); }
    if AncOf2 in cflags {
      var j :| 0 <= j < |c2s| && IsAncestor(g, cmt, c2s[j]);
      AncestorStep(g, cmt, c2s[j], pcmt);
    }
  }

  /** The final filter of `_find_lcas`: the candidates not marked `_DNC`,
      each kept once, in candidate order. */
  function SurvivorsOf(cands: seq<Stamped>, cstates: map<CommitId, set<Flag>>): (r: seq<Stamped>)
    ensures forall e :: e in r <==> e in cands && Dnc !in Flags(cstates, e.1)
    decreases |cands|
  {
    if cands == [] then []
    else
      var init, e := cands[..|cands| - 1], cands[|cands| - 1];
      var rest := SurvivorsOf(init, cstates);
      assert cands == init + [e];
      if Dnc !in Flags(cstates, e.1) && e !in rest then rest + [e] else rest
  }

  /** The final pass of `_find_lcas` before sorting: the candidates not marked
      `_DNC`, in discovery order, without repeats. */
  method Survivors(cands: seq<Stamped>, cstates: map<CommitId, set<Flag>>) returns (results: seq<Stamped>)
    requires DistinctCommits(cands) && forall e :: e in cands ==> e.1 in cstates
    ensures results == SurvivorsOf(cands, cstates)
    ensures DistinctCommits(results)
    ensures forall e :: e in results <==> e in cands && Dnc !in cstates[e.1]
  {
    results := [];
    var r := 0;
    while r < |cands|
      invariant 0 <= r <= |cands|
      invariant results == SurvivorsOf(cands[..r], cstates)
      invariant DistinctCommits(results)
      invariant forall e :: e in results <==> e in cands[..r] && Dnc !in cstates[e.1]
    {
      var e := cands[r];
      if Dnc !in cstates[e.1] && e !in results {
        forall x | 0 <= x < |results|
          ensures results[x].1 != e.1
        {
          assert results[x] in results;
          assert results[x] in cands[..r];
          var m :| 0 <= m < r && cands[m] == results[x];
        }
        results := results + [e];
      }
      assert cands[..r + 1] == cands[..r] + [e] && cands[..r + 1][..r] == cands[..r];
      r := r + 1;
    }
    assert cands[..r] == cands;
  }

  /** The flags `_find_lcas` starts from: `_ANC_OF_1` on `c1`, then
      `_ANC_OF_2` added to each of `c2s` in turn. */
  ghost function StartFlags(c1: CommitId, c2s: seq<CommitId>): map<CommitId, set<Flag>>
    decreases |c2s|
  {
    if c2s == [] then map[c1 := {AncOf1}]
    else
      var m, c2 := StartFlags(c1, c2s[..|c2s| - 1]), c2s[|c2s| - 1];
      m[c2 := Flags(m, c2) + {AncOf2}]
  }

  /** The starting flags are exactly: `_ANC_OF_1` on `c1`, `_ANC_OF_2` on each
      of `c2s`, and nothing else is reached. */
  lemma {:induction false} StartFlagsMeaning(c1: CommitId, c2s: seq<CommitId>)
    ensures forall c :: c in StartFlags(c1, c2s) <==> c == c1 || c in c2s
    ensures forall c :: Flags(StartFlags(c1, c2s), c)
                        == (if c == c1 then {AncOf1} else {}) + (if c in c2s then {AncOf2} else {})
    decreases |c2s|
  {
    if c2s != [] {
      var init := c2s[..|c2s| - 1];
      assert c2s == init + [c2s[|c2s| - 1]];
      StartFlagsMeaning(c1, init);
    }
  }

  /** The worklist entries for `cs`, in order. */
  ghost function Stamps(g: CommitGraph, cs: seq<CommitId>): seq<Stamped>
    requires forall c :: c in cs ==> c in g.stamp
  {
    seq(|cs|, j requires 0 <= j < |cs| => (g.stamp[cs[j]], cs[j]))
  }

  /** The set-up loop's step from position `k` to `k + 1`. */
  lemma StartStep(g: CommitGraph, c1: CommitId, c2s: seq<CommitId>, k: nat)
    requires k < |c2s| && c1 in g.stamp && forall c :: c in c2s ==> c in g.stamp
    ensures StartFlags(c1, c2s[..k + 1])
            == StartFlags(c1, c2s[..k])[c2s[k] := Flags(StartFlags(c1, c2s[..k]), c2s[k]) + {AncOf2}]
    ensures Stamps(g, [c1] + c2s[..k + 1]) == Stamps(g, [c1] + c2s[..k]) + [(g.stamp[c2s[k]], c2s[k])]
  {
    assert c2s[..k + 1][..k] == c2s[..k];
    assert [c1] + c2s[..k + 1] == ([c1] + c2s[..k]) + [c2s[k]];
  }

  /** Flagging and queueing the next commit of `c2s` keeps the walk invariant. */
  lemma StartKeepsWalkInv(g: CommitGraph, c1: CommitId, c2s: seq<CommitId>, minStamp: int,
                          cstates: map<CommitId, set<Flag>>, wlst: seq<Stamped>, k: nat)
    requires WalkInv(g, c1, c2s, minStamp, cstates, wlst, []) && k < |c2s| && c2s[k] in g.parents
    ensures WalkInv(g, c1, c2s, minStamp, cstates[c2s[k] := Flags(cstates, c2s[k]) + {AncOf2}],
                    wlst + [(g.stamp[c2s[k]], c2s[k])], [])
  {
    AncestorRefl(g, c2s[k]);
    assert IsAncestorOfSome(g, c2s[k], c2s);
  }

  /** The set-up of `_find_lcas`: `c1` flagged `_ANC_OF_1`, each of `c2s`
      flagged `_ANC_OF_2` on top of what it has, all of them queued in order. */
  method StartWalk(g: CommitGraph, c1: CommitId, c2s: seq<CommitId>, minStamp: int)
    returns (cstates: map<CommitId, set<Flag>>, wlst: seq<Stamped>)
    requires Closed(g) && c1 in g.parents && forall c :: c in c2s ==> c in g.parents
    ensures cstates == StartFlags(c1, c2s)
    ensures wlst == Stamps(g, [c1] + c2s)
    ensures WalkInv(g, c1, c2s, minStamp, cstates, wlst, [])
  {
    cstates := map[c1 := {AncOf1}];
    AncestorRefl(g, c1);
    wlst := [(g.stamp[c1], c1)];
    var k := 0;
    assert c2s[..0] == [] && [c1] + c2s[..0] == [c1];
    while k < |c2s|
      invariant 0 <= k <= |c2s|
      invariant cstates == StartFlags(c1, c2s[..k])
      invariant wlst == Stamps(g, [c1] + c2s[..k])
      invariant WalkInv(g, c1, c2s, minStamp, cstates, wlst, [])
    {
      var c2 := c2s[k];
      var cflags := Flags(cstates, c2);
      StartKeepsWalkInv(g, c1, c2s, minStamp, cstates, wlst, k);
      StartStep(g, c1, c2s, k);
      cstates := cstates[c2 := cflags + {AncOf2}];
      wlst := wlst + [(g.stamp[c2], c2)];
      k := k + 1;
    }
    assert c2s[..k] == c2s;
  }

  /** The flags a visited commit hands to its parents: its ancestry flags,
      plus `_DNC` when it is an ancestor of both sides. */
  ghost function Passed(cstates: map<CommitId, set<Flag>>, cmt: CommitId): set<Flag>
    requires cmt in cstates
  {
    var anc := cstates[cmt] * AncestryFlags;
    if BothSides(cstates[cmt]) then anc + {Dnc} else anc
  }

  /** The flags of an ancestor of both sides that is not `_DNC`: the test
      `cflags == (_ANC_OF_1 | _ANC_OF_2)` on the masked flags. */
  predicate BothSides(flags: set<Flag>)
  {
    AncOf1 in flags && AncOf2 in flags && Dnc !in flags
  }

  lemma BothSidesMask(flags: set<Flag>)
    ensures (flags * AncestryFlags == {AncOf1, AncOf2}) == BothSides(flags)
  {
    if BothSides(flags) {
      assert flags * AncestryFlags == {AncOf1, AncOf2};
    }
    if flags * AncestryFlags == {AncOf1, AncOf2} {
      assert AncOf1 in flags * AncestryFlags && AncOf2 in flags * AncestryFlags;
      assert Dnc !in flags * AncestryFlags;
    }
  }

  /** The walk's state is well formed enough to take a step. */
  ghost predicate Ready(g: CommitGraph, cstates: map<CommitId, set<Flag>>, wlst: seq<Stamped>)
  {
    && Closed(g) && |wlst| > 0 && cstates.Keys <= g.parents.Keys
    && forall e :: e in wlst ==> e.1 in cstates
  }

  /** One round of the `_find_lcas` loop on the state `(cstates, wlst, cands)`:
      pop the entry at `Newest`; a commit flagged an ancestor of both sides and
      not `_DNC` is flagged `_LCA` and appended to the candidates unless it
      already was one; then its parents are handled with `Passed`. */
  ghost function Step(g: CommitGraph, minStamp: int, cstates: map<CommitId, set<Flag>>,
                      wlst: seq<Stamped>, cands: seq<Stamped>): (map<CommitId, set<Flag>>, seq<Stamped>, seq<Stamped>)
    requires Ready(g, cstates, wlst)
  {
    var k := Newest(wlst);
    var (dt, cmt) := wlst[k];
    var ps := g.parents[cmt];
    assert forall p :: p in ps ==> p in g.stamp;
    (QueueState(g, minStamp, Marked(cstates, cmt), ps, Passed(cstates, cmt)),
     wlst[..k] + wlst[k + 1..] + Queued(g, minStamp, Marked(cstates, cmt), ps, Passed(cstates, cmt)),
     if BothSides(cstates[cmt]) && Lca !in cstates[cmt] then cands + [(dt, cmt)] else cands)
  }

  /** The state map once a popped commit that is an ancestor of both sides
      and not `_DNC` has been flagged `_LCA`. */
  ghost function Marked(cstates: map<CommitId, set<Flag>>, cmt: CommitId): map<CommitId, set<Flag>>
    requires cmt in cstates
  {
    if BothSides(cstates[cmt]) && Lca !in cstates[cmt] then cstates[cmt := cstates[cmt] + {Lca}] else cstates
  }

  /** Marking adds at most `_LCA`, and adds it where the popped commit is an
      ancestor of both sides and not `_DNC`. */
  lemma MarkedFacts(cstates: map<CommitId, set<Flag>>, cmt: CommitId)
    requires cmt in cstates
    ensures forall c :: SameAncestry(Flags(Marked(cstates, cmt), c), Flags(cstates, c))
    ensures forall c :: Flags(cstates, c) <= Flags(Marked(cstates, cmt), c)
    ensures BothSides(cstates[cmt]) ==> Lca in Flags(Marked(cstates, cmt), cmt)
  {
    forall c
      ensures SameAncestry(Flags(Marked(cstates, cmt), c), Flags(cstates, c))
      ensures Flags(cstates, c) <= Flags(Marked(cstates, cmt), c)
    {
      if BothSides(cstates[cmt]) && Lca !in cstates[cmt] && c == cmt {
        assert Flags(Marked(cstates, cmt), c) == cstates[cmt] + {Lca};
      } else {
        assert Flags(Marked(cstates, cmt), c) == Flags(cstates, c);
      }
    }
  }

  /** One round of the `while _has_candidates(...)` loop, as `Step` describes
      it; it keeps the walk invariant and shrinks the termination measure. */
  method VisitNext(g: CommitGraph, c1: CommitId, c2s: seq<CommitId>, minStamp: int,
                   cstates: map<CommitId, set<Flag>>, wlst: seq<Stamped>, cands: seq<Stamped>)
    returns (cstates': map<CommitId, set<Flag>>, wlst': seq<Stamped>, cands': seq<Stamped>)
    requires WalkInv(g, c1, c2s, minStamp, cstates, wlst, cands) && |wlst| > 0
    ensures Ready(g, cstates, wlst) && (cstates', wlst', cands') == Step(g, minStamp, cstates, wlst, cands)
    ensures WalkInv(g, c1, c2s, minStamp, cstates', wlst', cands')
    ensures |Missing(g, cstates')| < |Missing(g, cstates)|
            || (|Missing(g, cstates')| == |Missing(g, cstates)| && |wlst'| < |wlst|)
  {
    var item, rest, i := PListGet(wlst);
    assert forall e :: e in rest ==> e in wlst;
    var (dt, cmt) := item;
    var cflags := cstates[cmt] * AncestryFlags;
    BothSidesMask(cstates[cmt]);
    cstates', cands' := cstates, cands;
    if cflags == {AncOf1, AncOf2} {
      if Lca !in cstates[cmt] {
        MarkLcaKeepsMissing(g, cstates, cmt);
        cstates' := cstates[cmt := cstates[cmt] + {Lca}];
        cands' := cands + [(dt, cmt)];
      }
      cflags := cflags + {Dnc};
    }
    cstates', wlst' := QueueParents(g, c1, c2s, minStamp, cstates', rest, cands', cmt, cflags);
  }

  /** What the walk has established about the commits it has not finished
      with: the starting flags are in place; every `_DNC` commit lies strictly
      below a candidate; a commit that is no longer queued has passed its
      ancestry flags to every parent not older than `minStamp`; and a commit
      flagged an ancestor of both sides is still queued, a candidate, or
      `_DNC`. */
  ghost predicate Frontier(g: CommitGraph, c1: CommitId, c2s: seq<CommitId>, minStamp: int,
                           cstates: map<CommitId, set<Flag>>, wlst: seq<Stamped>, cands: seq<Stamped>)
  {
    && AncOf1 in Flags(cstates, c1)
    && (forall c :: c in c2s ==> AncOf2 in Flags(cstates, c))
    && (forall c :: Dnc in Flags(cstates, c) ==> exists e :: e in cands && ProperAncestor(g, c, e.1))
    && (forall c, p :: c in g.parents && p in g.parents[c] && p in g.stamp && g.stamp[p] >= minStamp && !Pending(c, wlst)
          ==> ((AncOf1 in Flags(cstates, c) ==> AncOf1 in Flags(cstates, p))
               && (AncOf2 in Flags(cstates, c) ==> AncOf2 in Flags(cstates, p))))
    && (forall c :: AncOf1 in Flags(cstates, c) && AncOf2 in Flags(cstates, c)
          ==> Pending(c, wlst) || Lca in Flags(cstates, c) || Dnc in Flags(cstates, c))
  }

  lemma StartFrontier(g: CommitGraph, c1: CommitId, c2s: seq<CommitId>, minStamp: int)
    requires Closed(g) && c1 in g.parents && forall c :: c in c2s ==> c in g.parents
    ensures Frontier(g, c1, c2s, minStamp, StartFlags(c1, c2s), Stamps(g, [c1] + c2s), [])
  {
    var ids := [c1] + c2s;
    var wlst := Stamps(g, ids);
    StartFlagsMeaning(c1, c2s);
    forall c | c in ids
      ensures Pending(c, wlst)
    {
      var j :| 0 <= j < |ids| && ids[j] == c;
      assert wlst[j] in wlst;
    }
  }

  /** A step removes only the popped entry from the worklist. */
  lemma RestKeepsPending(wlst: seq<Stamped>, k: nat, c: CommitId)
    requires k < |wlst| && wlst[k].1 != c && Pending(c, wlst)
    ensures Pending(c, wlst[..k] + wlst[k + 1..])
  {
    var e :| e in wlst && e.1 == c;
    var j :| 0 <= j < |wlst| && wlst[j] == e;
    if j < k {
      assert (wlst[..k] + wlst[k + 1..])[j] == e;
    } else {
      assert (wlst[..k] + wlst[k + 1..])[j - 1] == e;
    }
  }

  /** `a` and `b` agree on the ancestry flags and `_DNC`. */
  ghost predicate SameAncestry(a: set<Flag>, b: set<Flag>)
  {
    (AncOf1 in a <==> AncOf1 in b) && (AncOf2 in a <==> AncOf2 in b) && (Dnc in a <==> Dnc in b)
  }

  /** What one round does to the flags, in the terms `Frontier` needs: flags
      only grow; a commit that is not queued afterwards keeps its ancestry
      flags; `_DNC` reaches only parents of the popped commit, and only when it
      passes `_DNC`; parents not older than `minStamp` end up with the passed
      flags; a popped ancestor of both sides that is not `_DNC` ends up `_LCA`. */
  lemma StepFlags(g: CommitGraph, c1: CommitId, c2s: seq<CommitId>, minStamp: int,
                  cstates: map<CommitId, set<Flag>>, wlst: seq<Stamped>, cands: seq<Stamped>)
    requires WalkInv(g, c1, c2s, minStamp, cstates, wlst, cands) && |wlst| > 0
    ensures Ready(g, cstates, wlst)
    ensures var s, cmt := Step(g, minStamp, cstates, wlst, cands), wlst[Newest(wlst)].1;
      && cmt in cstates
      && (forall c :: Flags(cstates, c) <= Flags(s.0, c))
      && (forall c :: !Pending(c, s.1) ==> SameAncestry(Flags(s.0, c), Flags(cstates, c)))
  {
    var k := Newest(wlst);
    var cmt := wlst[k].1;
    assert wlst[k] in wlst;
    var ps := g.parents[cmt];
    assert forall p :: p in ps ==> p in g.stamp;
    var marked, cflags := Marked(cstates, cmt), Passed(cstates, cmt);
    MarkedFacts(cstates, cmt);
    QueueFacts(g, minStamp, marked, ps, cflags);
    var s := Step(g, minStamp, cstates, wlst, cands);
    var q := Queued(g, minStamp, marked, ps, cflags);
    assert s.0 == QueueState(g, minStamp, marked, ps, cflags);
    assert s.1 == wlst[..k] + wlst[k + 1..] + q;
    forall c | Pending(c, q)
      ensures Pending(c, s.1)
    {
      var e :| e in q && e.1 == c;
      assert e in s.1;
    }
  }

  /** What a step passes on: `_DNC` only to the parents of the visited
      commit, its passed flags to every parent within the bound, and `_LCA`
      to the visited commit when it is an ancestor of both sides. */
  lemma StepPasses(g: CommitGraph, c1: CommitId, c2s: seq<CommitId>, minStamp: int,
                   cstates: map<CommitId, set<Flag>>, wlst: seq<Stamped>, cands: seq<Stamped>)
    requires WalkInv(g, c1, c2s, minStamp, cstates, wlst, cands) && |wlst| > 0
    ensures Ready(g, cstates, wlst)
    ensures var s, cmt := Step(g, minStamp, cstates, wlst, cands), wlst[Newest(wlst)].1;
      && cmt in cstates
      && (forall c :: Dnc in Flags(s.0, c) && Dnc !in Flags(cstates, c) ==> c in g.parents[cmt] && Dnc in Passed(cstates, cmt))
      && (forall p :: p in g.parents[cmt] && g.stamp[p] >= minStamp ==> Passed(cstates, cmt) <= Flags(s.0, p))
      && (BothSides(cstates[cmt]) ==> Lca in Flags(s.0, cmt))
  {
    var k := Newest(wlst);
    var cmt := wlst[k].1;
    assert wlst[k] in wlst;
    var ps := g.parents[cmt];
    assert forall p :: p in ps ==> p in g.stamp;
    var marked, cflags := Marked(cstates, cmt), Passed(cstates, cmt);
    MarkedFacts(cstates, cmt);
    QueueFacts(g, minStamp, marked, ps, cflags);
    QueueOnlyParents(g, minStamp, marked, ps, cflags);
    assert Step(g, minStamp, cstates, wlst, cands).0 == QueueState(g, minStamp, marked, ps, cflags);
  }

  /** What one round does to the worklist and the candidates: entries for
      commits other than the popped one stay queued; candidates are only
      appended; a popped ancestor of both sides that is not `_DNC` is a
      candidate afterwards. */
  lemma StepQueue(g: CommitGraph, c1: CommitId, c2s: seq<CommitId>, minStamp: int,
                  cstates: map<CommitId, set<Flag>>, wlst: seq<Stamped>, cands: seq<Stamped>)
    requires WalkInv(g, c1, c2s, minStamp, cstates, wlst, cands) && |wlst| > 0
    ensures Ready(g, cstates, wlst)
    ensures var s, cmt := Step(g, minStamp, cstates, wlst, cands), wlst[Newest(wlst)].1;
      && cmt in cstates
      && (forall c :: c != cmt && Pending(c, wlst) ==> Pending(c, s.1))
      && (forall e :: e in cands ==> e in s.2)
      && (BothSides(cstates[cmt]) ==> exists e :: e in s.2 && e.1 == cmt)
  {
    var k := Newest(wlst);
    var (dt, cmt) := wlst[k];
    assert wlst[k] in wlst;
    var rest := wlst[..k] + wlst[k + 1..];
    var s := Step(g, minStamp, cstates, wlst, cands);
    var ps := g.parents[cmt];
    assert forall p :: p in ps ==> p in g.stamp;
    var q := Queued(g, minStamp, Marked(cstates, cmt), ps, Passed(cstates, cmt));
    assert s.1 == rest + q;
    forall c | c != cmt && Pending(c, wlst)
      ensures Pending(c, s.1)
    {
      RestKeepsPending(wlst, k, c);
      var e :| e in rest && e.1 == c;
      assert e in s.1;
    }
    if BothSides(cstates[cmt]) {
      if Lca in cstates[cmt] {
        var e :| e in cands && e.1 == cmt;
        assert e in s.2;
      } else {
        assert (dt, cmt) in s.2;
      }
    }
  }

  /** Each round of the walk keeps `Frontier`. */
  lemma StepKeepsFrontier(g: CommitGraph, c1: CommitId, c2s: seq<CommitId>, minStamp: int,
                          cstates: map<CommitId, set<Flag>>, wlst: seq<Stamped>, cands: seq<Stamped>)
    requires WalkInv(g, c1, c2s, minStamp, cstates, wlst, cands) && |wlst| > 0
    requires Frontier(g, c1, c2s, minStamp, cstates, wlst, cands)
    ensures Ready(g, cstates, wlst)
    ensures var s := Step(g, minStamp, cstates, wlst, cands); Frontier(g, c1, c2s, minStamp, s.0, s.1, s.2)
  {
    StepFlags(g, c1, c2s, minStamp, cstates, wlst, cands);
    StepPasses(g, c1, c2s, minStamp, cstates, wlst, cands);
    StepQueue(g, c1, c2s, minStamp, cstates, wlst, cands);
    var s := Step(g, minStamp, cstates, wlst, cands);
    var cmt := wlst[Newest(wlst)].1;
    var cflags := Passed(cstates, cmt);
    forall c | Dnc in Flags(s.0, c)
      ensures exists e :: e in s.2 && ProperAncestor(g, c, e.1)
    {
      if Dnc in Flags(cstates, c) {
        var e :| e in cands && ProperAncestor(g, c, e.1);
        assert e in s.2;
      } else {
        ParentIsProper(g, c, cmt);
        if Dnc in Flags(cstates, cmt) {
          var e :| e in cands && ProperAncestor(g, cmt, e.1);
          ProperTrans(g, c, cmt, e.1);
          assert e in s.2;
        } else {
          var e :| e in s.2 && e.1 == cmt;
        }
      }
    }
    forall c, p | c in g.parents && p in g.parents[c] && p in g.stamp && g.stamp[p] >= minStamp && !Pending(c, s.1)
      ensures (AncOf1 in Flags(s.0, c) ==> AncOf1 in Flags(s.0, p)) && (AncOf2 in Flags(s.0, c) ==> AncOf2 in Flags(s.0, p))
    {
      assert SameAncestry(Flags(s.0, c), Flags(cstates, c));
      if c != cmt {
        assert !Pending(c, wlst);
      }
    }
    forall c | AncOf1 in Flags(s.0, c) && AncOf2 in Flags(s.0, c) && !Pending(c, s.1)
      ensures Lca in Flags(s.0, c) || Dnc in Flags(s.0, c)
    {
      if c != cmt {
        assert !Pending(c, wlst);
      }
    }
  }

  /** The walk is over: every queued commit is `_DNC`. */
  ghost predicate Settled(cstates: map<CommitId, set<Flag>>, wlst: seq<Stamped>)
  {
    forall e :: e in wlst ==> Dnc in Flags(cstates, e.1)
  }

  /** `x` lies at or below some candidate. */
  ghost predicate BelowCandidate(g: CommitGraph, cands: seq<Stamped>, x: CommitId)
  {
    exists e :: e in cands && IsAncestor(g, x, e.1)
  }

  /** Once the walk is over, an ancestry flag reaches the end of any walk from
      a commit that carries it, unless that end already lies below a candidate. */
  lemma {:induction false} FlagAlongWalk(g: CommitGraph, c1: CommitId, c2s: seq<CommitId>, minStamp: int,
                                         cstates: map<CommitId, set<Flag>>, wlst: seq<Stamped>, cands: seq<Stamped>,
                                         w: seq<CommitId>, f: Flag)
    requires WalkInv(g, c1, c2s, minStamp, cstates, wlst, cands) && Frontier(g, c1, c2s, minStamp, cstates, wlst, cands)
    requires Settled(cstates, wlst) && AllAbove(g, minStamp)
    requires IsWalk(g, w) && (f == AncOf1 || f == AncOf2) && f in Flags(cstates, w[0])
    ensures f in Flags(cstates, w[|w| - 1]) || BelowCandidate(g, cands, w[|w| - 1])
    decreases |w|
  {
    if |w| > 1 {
      var w' := w[..|w| - 1];
      assert IsWalk(g, w');
      FlagAlongWalk(g, c1, c2s, minStamp, cstates, wlst, cands, w', f);
      var c, x := w[|w| - 2], w[|w| - 1];
      assert w'[|w'| - 1] == c && x in g.parents[c];
      ParentIsProper(g, x, c);
      ProperIsAncestor(g, x, c);
      if BelowCandidate(g, cands, c) {
        var e :| e in cands && IsAncestor(g, c, e.1);
        AncestorTrans(g, x, c, e.1);
      } else if Dnc in Flags(cstates, c) {
        var e :| e in cands && ProperAncestor(g, c, e.1);
        ProperIsAncestor(g, c, e.1);
        AncestorTrans(g, x, c, e.1);
      } else {
        assert !Pending(c, wlst);
      }
    }
  }

  /** Once the walk is over, every common ancestor lies at or below a candidate. */
  lemma CommonAboveCandidate(g: CommitGraph, c1: CommitId, c2s: seq<CommitId>, minStamp: int,
                             cstates: map<CommitId, set<Flag>>, wlst: seq<Stamped>, cands: seq<Stamped>, x: CommitId)
    requires WalkInv(g, c1, c2s, minStamp, cstates, wlst, cands) && Frontier(g, c1, c2s, minStamp, cstates, wlst, cands)
    requires Settled(cstates, wlst) && AllAbove(g, minStamp)
    requires IsAncestor(g, x, c1) && IsAncestorOfSome(g, x, c2s)
    ensures BelowCandidate(g, cands, x)
  {
    var w1 :| IsWalk(g, w1) && w1[0] == c1 && w1[|w1| - 1] == x;
    FlagAlongWalk(g, c1, c2s, minStamp, cstates, wlst, cands, w1, AncOf1);
    var j :| 0 <= j < |c2s| && IsAncestor(g, x, c2s[j]);
    var w2 :| IsWalk(g, w2) && w2[0] == c2s[j] && w2[|w2| - 1] == x;
    FlagAlongWalk(g, c1, c2s, minStamp, cstates, wlst, cands, w2, AncOf2);
    if !BelowCandidate(g, cands, x) {
      if Dnc in Flags(cstates, x) || Pending(x, wlst) {
        var e :| e in cands && ProperAncestor(g, x, e.1);
        ProperIsAncestor(g, x, e.1);
      } else {
        var e :| e in cands && e.1 == x;
        AncestorRefl(g, x);
      }
    }
  }

  /** The commits of the candidate list, in order. */
  function CandIds(cands: seq<Stamped>): seq<CommitId>
  {
    seq(|cands|, i requires 0 <= i < |cands| => cands[i].1)
  }

  /** On an acyclic graph, a commit at or below some candidate lies at or
      below a surviving one: of the candidates above it, one that is below no
      other of them is not `_DNC`. */
  lemma MaximalSurvives(g: CommitGraph, x: CommitId, cstates: map<CommitId, set<Flag>>,
                        cands: seq<Stamped>, lcas: seq<CommitId>)
    requires Closed(g) && Acyclic(g) && BelowCandidate(g, cands, x)
    requires forall c :: Dnc in Flags(cstates, c) ==> exists e :: e in cands && ProperAncestor(g, c, e.1)
    requires forall c :: c in lcas <==> (exists e :: e in cands && e.1 == c) && Dnc !in Flags(cstates, c)
    ensures exists l :: l in lcas && IsAncestor(g, x, l)
  {
    var ids := CandIds(cands);
    var e :| e in cands && IsAncestor(g, x, e.1);
    var i :| 0 <= i < |cands| && cands[i] == e;
    assert ids[i] == e.1;
    var m := MaximalAbove(g, x, ids);
    var im :| 0 <= im < |ids| && ids[im] == m;
    assert cands[im].1 == m;
    forall d | d in cands && ProperAncestor(g, m, d.1)
      ensures d.1 in ids && IsAncestor(g, x, d.1)
    {
      var id :| 0 <= id < |cands| && cands[id] == d;
      assert ids[id] == d.1;
      ProperIsAncestor(g, m, d.1);
      AncestorTrans(g, x, m, d.1);
    }
    assert m in lcas;
  }

  /** Completeness of the walk on an acyclic graph that it never cuts: every
      common ancestor lies at or below a surviving candidate. Of the
      candidates above `x`, one below no other of them cannot be `_DNC`, for
      that would put it strictly below another candidate. */
  lemma WalkCovers(g: CommitGraph, c1: CommitId, c2s: seq<CommitId>, minStamp: int,
                   cstates: map<CommitId, set<Flag>>, wlst: seq<Stamped>, cands: seq<Stamped>, lcas: seq<CommitId>)
    requires WalkInv(g, c1, c2s, minStamp, cstates, wlst, cands) && Frontier(g, c1, c2s, minStamp, cstates, wlst, cands)
    requires Settled(cstates, wlst) && AllAbove(g, minStamp) && Acyclic(g)
    requires forall c :: c in lcas <==> (exists e :: e in cands && e.1 == c) && Dnc !in Flags(cstates, c)
    ensures Covers(g, c1, c2s, lcas)
  {
    forall x | IsAncestor(g, x, c1) && IsAncestorOfSome(g, x, c2s)
      ensures exists l :: l in lcas && IsAncestor(g, x, l)
    {
      CommonAboveCandidate(g, c1, c2s, minStamp, cstates, wlst, cands, x);
      MaximalSurvives(g, x, cstates, cands, lcas);
    }
  }

  /** `_find_lcas`: the lowest common ancestors of `c1` and any of `c2s`, oldest
      first. The walk always expands the newest queued commit; a commit seen
      with both ancestry flags becomes a candidate and passes `_DNC` to its
      parents; a parent is queued again only when it gains a flag, so the walk
      ends on a finite graph. Candidates still marked `_DNC` at the end were
      superseded by a lower one. The result is exactly the commits whose final
      flags hold `_LCA` and not `_DNC`; on an acyclic graph that the stamp
      bound never cuts, every common ancestor lies at or below one of them. */
  method FindLcas(g: CommitGraph, c1: CommitId, c2s: seq<CommitId>, minStamp: int)
    returns (lcas: seq<CommitId>, ghost flags: map<CommitId, set<Flag>>)
    requires Closed(g) && c1 in g.parents && forall c :: c in c2s ==> c in g.parents
    ensures forall c :: c in lcas ==> c in g.parents
    ensures forall c :: c in lcas ==> IsAncestor(g, c, c1) && IsAncestorOfSome(g, c, c2s)
    ensures forall i, j :: 0 <= i < j < |lcas| ==> g.stamp[lcas[i]] <= g.stamp[lcas[j]]
    ensures forall i, j :: 0 <= i < j < |lcas| ==> lcas[i] != lcas[j]
    ensures forall c :: c in lcas ==> c == c1 || c in c2s || g.stamp[c] >= minStamp
    ensures forall c :: c in lcas <==> Lca in Flags(flags, c) && Dnc !in Flags(flags, c)
    ensures forall c :: c in flags && AncOf1 in flags[c] ==> IsAncestor(g, c, c1)
    ensures forall c :: c in flags && AncOf2 in flags[c] ==> IsAncestorOfSome(g, c, c2s)
    ensures Acyclic(g) && AllAbove(g, minStamp) ==> Covers(g, c1, c2s, lcas)
    ensures lcas == LcasOf(g, c1, c2s, minStamp) && flags == WalkFrom(g, c1, c2s, minStamp).0
  {
    var cstates, wlst, cands := RunWalk(g, c1, c2s, minStamp);
    lcas := Finish(g, c1, c2s, minStamp, cstates, cands);
    flags := cstates;
    LcaIff(g, c1, c2s, minStamp, cstates, wlst, cands, lcas);
    if Acyclic(g) && AllAbove(g, minStamp) {
      WalkCovers(g, c1, c2s, minStamp, cstates, wlst, cands, lcas);
    }
  }

  /** The results are exactly the commits whose final flags hold `_LCA` and
      not `_DNC`. */
  lemma LcaIff(g: CommitGraph, c1: CommitId, c2s: seq<CommitId>, minStamp: int,
               cstates: map<CommitId, set<Flag>>, wlst: seq<Stamped>, cands: seq<Stamped>, lcas: seq<CommitId>)
    requires WalkInv(g, c1, c2s, minStamp, cstates, wlst, cands)
    requires forall c :: c in lcas <==> (exists e :: e in cands && e.1 == c) && Dnc !in Flags(cstates, c)
    ensures forall c :: c in lcas <==> Lca in Flags(cstates, c) && Dnc !in Flags(cstates, c)
  {
    forall c | Lca in Flags(cstates, c)
      ensures exists e :: e in cands && e.1 == c
    {
    }
  }

  /** The set-up and main loop of `_find_lcas`: rounds are taken while some
      queued commit is not `_DNC`, so the walk stops settled, at the state the
      definition `WalkFrom` reaches. */
  method RunWalk(g: CommitGraph, c1: CommitId, c2s: seq<CommitId>, minStamp: int)
    returns (cstates: map<CommitId, set<Flag>>, wlst: seq<Stamped>, cands: seq<Stamped>)
    requires Closed(g) && c1 in g.parents && forall c :: c in c2s ==> c in g.parents
    ensures WalkInv(g, c1, c2s, minStamp, cstates, wlst, cands)
    ensures Frontier(g, c1, c2s, minStamp, cstates, wlst, cands)
    ensures Settled(cstates, wlst)
    ensures (cstates, cands) == WalkFrom(g, c1, c2s, minStamp)
  {
    cstates, wlst := StartWalk(g, c1, c2s, minStamp);
    StartFrontier(g, c1, c2s, minStamp);
    cands := [];
    var more := HasCandidates(wlst, cstates);
    while more
      invariant WalkInv(g, c1, c2s, minStamp, cstates, wlst, cands)
      invariant Frontier(g, c1, c2s, minStamp, cstates, wlst, cands)
      invariant more <==> exists e :: e in wlst && e.1 in cstates && Dnc !in cstates[e.1]
      invariant Walking(g, cstates, wlst, cands)
      invariant Walk(g, minStamp, cstates, wlst, cands) == WalkFrom(g, c1, c2s, minStamp)
      decreases |Missing(g, cstates)|, |wlst|
    {
      WalkUnfold(g, minStamp, cstates, wlst, cands);
      StepKeepsFrontier(g, c1, c2s, minStamp, cstates, wlst, cands);
      cstates, wlst, cands := VisitNext(g, c1, c2s, minStamp, cstates, wlst, cands);
      more := HasCandidates(wlst, cstates);
    }
  }


  /** The commits of surviving candidates, in any order: exactly the
      candidates not marked `_DNC`, each of them a common ancestor flagged
      `_LCA`. */
  lemma SurvivorIds(g: CommitGraph, c1: CommitId, c2s: seq<CommitId>, minStamp: int,
                    cstates: map<CommitId, set<Flag>>, cands: seq<Stamped>, sorted: seq<Stamped>)
    requires FlagsInv(g, c1, c2s, minStamp, cstates, cands)
    requires forall e :: e in sorted <==> e in cands && Dnc !in cstates[e.1]
    ensures forall c :: c in CandIds(sorted) <==> (exists e :: e in cands && e.1 == c) && Dnc !in Flags(cstates, c)
    ensures forall j :: 0 <= j < |sorted| ==> Surviving(g, c1, c2s, minStamp, cstates, sorted[j].1) && sorted[j].0 == g.stamp[sorted[j].1]
  {
    var ids := CandIds(sorted);
    forall j | 0 <= j < |sorted|
      ensures Surviving(g, c1, c2s, minStamp, cstates, sorted[j].1) && sorted[j].0 == g.stamp[sorted[j].1]
    {
      assert sorted[j] in sorted;
    }
    forall c | (exists e :: e in cands && e.1 == c) && Dnc !in Flags(cstates, c)
      ensures c in ids
    {
      var e :| e in cands && e.1 == c;
      assert e in sorted;
      var j :| 0 <= j < |sorted| && sorted[j] == e;
      assert ids[j] == c;
    }
    forall c | c in ids
      ensures (exists e :: e in cands && e.1 == c) && Dnc !in Flags(cstates, c)
    {
      var j :| 0 <= j < |ids| && ids[j] == c;
      assert sorted[j] in sorted;
    }
  }

  /** The end of `_find_lcas`: the surviving candidates sorted by stamp, as
      commit ids. */
  method Finish(g: CommitGraph, c1: CommitId, c2s: seq<CommitId>, minStamp: int,
                cstates: map<CommitId, set<Flag>>, cands: seq<Stamped>)
    returns (lcas: seq<CommitId>)
    requires FlagsInv(g, c1, c2s, minStamp, cstates, cands)
    ensures forall c :: c in lcas <==> (exists e :: e in cands && e.1 == c) && Dnc !in Flags(cstates, c)
    ensures forall c :: c in lcas ==> c in g.parents
    ensures forall c :: c in lcas ==> IsAncestor(g, c, c1) && IsAncestorOfSome(g, c, c2s)
    ensures forall i, j :: 0 <= i < j < |lcas| ==> g.stamp[lcas[i]] <= g.stamp[lcas[j]]
    ensures forall i, j :: 0 <= i < j < |lcas| ==> lcas[i] != lcas[j]
    ensures forall c :: c in lcas ==> c == c1 || c in c2s || g.stamp[c] >= minStamp
    ensures forall c :: c in lcas ==> c in cstates && {AncOf1, AncOf2, Lca} <= cstates[c]
    ensures lcas == LcasFrom(cstates, cands)
  {
    var results := Survivors(cands, cstates);
    var sorted := SortByStamp(results);
    SortByStampDistinct(results);
    lcas := CandIds(sorted);
    SurvivorIds(g, c1, c2s, minStamp, cstates, cands, sorted);
    forall j | 0 <= j < |lcas|
      ensures Surviving(g, c1, c2s, minStamp, cstates, lcas[j]) && sorted[j].0 == g.stamp[lcas[j]]
    {
    }
  }

  /** A surviving candidate: flagged an ancestor of both sides and `_LCA`,
      never `_DNC`. */
  ghost predicate Surviving(g: CommitGraph, c1: CommitId, c2s: seq<CommitId>, minStamp: int,
                            cstates: map<CommitId, set<Flag>>, c: CommitId)
  {
    && c in cstates && c in g.parents && c in g.stamp
    && IsAncestor(g, c, c1) && IsAncestorOfSome(g, c, c2s)
    && (c == c1 || c in c2s || g.stamp[c] >= minStamp)
    && {AncOf1, AncOf2, Lca} <= cstates[c] && Dnc !in cstates[c]
  }

  /** `find_merge_base`: lowest common ancestors of the first id and any of the
      others; no ids give none, a single id or a first id repeated among the
      others gives that id. On an acyclic graph every common ancestor lies at
      or below one of the results. */
  method FindMergeBase(g: CommitGraph, ids: seq<CommitId>) returns (lcas: seq<CommitId>)
    requires Closed(g) && forall c :: c in ids ==> c in g.parents
    ensures ids == [] ==> lcas == []
    ensures |ids| == 1 ==> lcas == [ids[0]]
    ensures |ids| > 1 && ids[0] in ids[1..] ==> lcas == [ids[0]]
    ensures forall c :: c in lcas ==> c in g.parents
    ensures |ids| > 1 ==> forall c :: c in lcas ==> IsAncestor(g, c, ids[0]) && IsAncestorOfSome(g, c, ids[1..])
    ensures forall i, j :: 0 <= i < j < |lcas| ==> g.stamp[lcas[i]] <= g.stamp[lcas[j]] && lcas[i] != lcas[j]
    ensures |ids| > 1 && Acyclic(g) && AllAbove(g, 0) ==> Covers(g, ids[0], ids[1..], lcas)
    ensures lcas == MergeBaseOf(g, ids)
  {
    if ids == [] {
      return [];
    }
    var c1 := ids[0];
    if !(|ids| > 1) {
      return [c1];
    }
    var c2s := ids[1..];
    if c1 in c2s {
      AncestorRefl(g, c1);
      var j :| 0 <= j < |c2s| && c2s[j] == c1;
      assert IsAncestor(g, c1, c2s[j]);
      assert forall x :: IsAncestor(g, x, c1) ==> c1 in [c1] && IsAncestor(g, x, c1);
      return [c1];
    }
    ghost var flags;
    lcas, flags := FindLcas(g, c1, c2s, 0);
  }

  /** With two ids, "an ancestor of some of the others" means an ancestor
      of the second. */
  lemma SecondOfPair(g: CommitGraph, cs: seq<CommitId>, ids: seq<CommitId>)
    requires |ids| == 2 && forall c :: c in cs ==> IsAncestorOfSome(g, c, ids[1..])
    ensures forall c :: c in cs ==> IsAncestor(g, c, ids[1])
  {
    forall c | c in cs ensures IsAncestor(g, c, ids[1]) {
      assert IsAncestorOfSome(g, c, ids[1..]);
      var j :| 0 <= j < |ids[1..]| && IsAncestor(g, c, ids[1..][j]);
    }
  }

  /** With two ids, the merge base of the pair is a base of both, and covers
      every common ancestor of both whenever it covers those of the first and
      the second. */
  lemma PairCovers(g: CommitGraph, ids: seq<CommitId>, lcas: seq<CommitId>)
    requires |ids| == 2
    requires forall c :: c in lcas ==> IsAncestor(g, c, ids[0]) && IsAncestorOfSome(g, c, ids[1..])
    requires Acyclic(g) && AllAbove(g, 0) ==> Covers(g, ids[0], ids[1..], lcas)
    ensures forall c, k :: c in lcas && 0 <= k < |ids| ==> IsAncestor(g, c, ids[k])
    ensures Acyclic(g) && AllAbove(g, 0) ==> CoversAll(g, ids, lcas)
  {
    SecondOfPair(g, lcas, ids);
    forall c, k | c in lcas && 0 <= k < |ids|
      ensures IsAncestor(g, c, ids[k])
    {
      if k == 1 { assert IsAncestor(g, c, ids[1]); }
    }
    if Acyclic(g) && AllAbove(g, 0) {
      forall x | AncestorOfAll(g, x, ids)
        ensures exists l :: l in lcas && IsAncestor(g, x, l)
      {
        assert IsAncestor(g, x, ids[0]) && IsAncestor(g, x, ids[1..][0]);
      }
    }
  }

  /** `x` is an ancestor of every one of `ids`. */
  ghost predicate AncestorOfAll(g: CommitGraph, x: CommitId, ids: seq<CommitId>)
  {
    forall k :: 0 <= k < |ids| ==> IsAncestor(g, x, ids[k])
  }

  /** Every common ancestor of all of `ids` lies at or below one of `lcas`. */
  ghost predicate CoversAll(g: CommitGraph, ids: seq<CommitId>, lcas: seq<CommitId>)
  {
    forall x :: AncestorOfAll(g, x, ids) ==> exists l :: l in lcas && IsAncestor(g, x, l)
  }

  /** `find_octopus_base`: at most two ids are handed to `find_merge_base`;
      otherwise the candidates start as the first id and, for each further id,
      become the concatenated LCAs of that id with each current candidate. Every
      result is then an ancestor of every id, and on an acyclic graph every
      common ancestor of all the ids lies at or below one of the results. */
  method FindOctopusBase(g: CommitGraph, ids: seq<CommitId>) returns (lcas: seq<CommitId>)
    requires Closed(g) && forall c :: c in ids ==> c in g.parents
    ensures ids == [] ==> lcas == []
    ensures |ids| == 1 ==> lcas == [ids[0]]
    ensures |ids| == 2 && ids[0] == ids[1] ==> lcas == [ids[0]]
    ensures forall c :: c in lcas ==> c in g.parents
    ensures |ids| != 1 ==> forall c, k :: c in lcas && 0 <= k < |ids| ==> IsAncestor(g, c, ids[k])
    ensures |ids| > 0 && Acyclic(g) && AllAbove(g, 0) ==> CoversAll(g, ids, lcas)
  {
    if ids == [] {
      return [];
    }
    ghost var complete := Acyclic(g) && AllAbove(g, 0);
    if |ids| <= 2 {
      lcas := FindMergeBase(g, ids);
      if |ids| == 2 {
        PairCovers(g, ids, lcas);
      } else {
        FirstCovers(g, ids);
      }
      return;
    }
    lcas := OctopusFold(g, ids);
  }

  /** The fold of `find_octopus_base` for more than two ids: the candidates
      start as the first id; each further id replaces them by the concatenated
      LCAs of that id with each candidate. */
  method OctopusFold(g: CommitGraph, ids: seq<CommitId>) returns (lcas: seq<CommitId>)
    requires Closed(g) && |ids| > 0 && forall c :: c in ids ==> c in g.parents
    ensures forall c :: c in lcas ==> c in g.parents
    ensures forall c, k :: c in lcas && 0 <= k < |ids| ==> IsAncestor(g, c, ids[k])
    ensures Acyclic(g) && AllAbove(g, 0) ==> CoversAll(g, ids, lcas)
  {
    ghost var complete := Acyclic(g) && AllAbove(g, 0);
    lcas := [ids[0]];
    AncestorRefl(g, ids[0]);
    FirstCovers(g, ids);
    var k := 1;
    while k < |ids|
      invariant 1 <= k <= |ids|
      invariant forall c :: c in lcas ==> c in g.parents
      invariant forall c, m :: c in lcas && 0 <= m < k ==> IsAncestor(g, c, ids[m])
      invariant complete ==> CoversAll(g, ids[..k], lcas)
    {
      var next := ExtendBases(g, ids[k], lcas);
      FoldSound(g, ids, k, lcas, next);
      if complete {
        FoldCovers(g, ids, k, lcas, next);
      }
      lcas := next;
      k := k + 1;
    }
    assert ids[..k] == ids;
  }

  /** The first id covers every ancestor of itself. */
  lemma FirstCovers(g: CommitGraph, ids: seq<CommitId>)
    requires |ids| > 0
    ensures CoversAll(g, ids[..1], [ids[0]])
    ensures CoversAll(g, ids, [ids[0]])
  {
    forall x | AncestorOfAll(g, x, ids[..1])
      ensures exists l :: l in [ids[0]] && IsAncestor(g, x, l)
    {
      assert IsAncestor(g, x, ids[..1][0]);
    }
    forall x | AncestorOfAll(g, x, ids)
      ensures exists l :: l in [ids[0]] && IsAncestor(g, x, l)
    {
      assert IsAncestor(g, x, ids[0]);
    }
  }

  /** The inner loop of `find_octopus_base`: the concatenated LCAs of `cmt`
      with each of `lcas`. Each result is an ancestor of `cmt` and of one of
      `lcas`; on an acyclic graph each common ancestor of `cmt` and one of
      `lcas` lies at or below one of the results. */
  method ExtendBases(g: CommitGraph, cmt: CommitId, lcas: seq<CommitId>) returns (next: seq<CommitId>)
    requires Closed(g) && cmt in g.parents && forall c :: c in lcas ==> c in g.parents
    ensures forall c :: c in next ==> c in g.parents && IsAncestor(g, c, cmt) && IsAncestorOfSome(g, c, lcas)
    ensures Acyclic(g) && AllAbove(g, 0) ==> Covers(g, cmt, lcas, next)
  {
    ghost var complete := Acyclic(g) && AllAbove(g, 0);
    next := [];
    var n := 0;
    while n < |lcas|
      invariant 0 <= n <= |lcas|
      invariant forall c :: c in next ==> c in g.parents && IsAncestor(g, c, cmt) && IsAncestorOfSome(g, c, lcas)
      invariant complete ==> CoversFirst(g, cmt, lcas, n, next)
    {
      var ca := lcas[n];
      assert ca in lcas;
      var res;
      ghost var flags;
      res, flags := FindLcas(g, cmt, [ca], 0);
      forall c | c in res
        ensures IsAncestorOfSome(g, c, lcas)
      {
        assert IsAncestorOfSome(g, c, [ca]);
        assert IsAncestor(g, c, lcas[n]);
      }
      if complete {
        CoversFirstStep(g, cmt, lcas, n, next, res);
      }
      next := next + res;
      n := n + 1;
    }
    if complete {
      forall x | IsAncestor(g, x, cmt) && IsAncestorOfSome(g, x, lcas)
        ensures exists l :: l in next && IsAncestor(g, x, l)
      {
        assert AboveOneOf(g, x, lcas, n);
      }
    }
  }

  /** Every common ancestor of `cmt` and one of the first `n` of `lcas` lies at
      or below one of `next`. */
  ghost predicate CoversFirst(g: CommitGraph, cmt: CommitId, lcas: seq<CommitId>, n: nat, next: seq<CommitId>)
  {
    forall x :: IsAncestor(g, x, cmt) && AboveOneOf(g, x, lcas, n) ==> exists l :: l in next && IsAncestor(g, x, l)
  }

  /** `x` lies at or below one of the first `n` of `lcas`. */
  ghost predicate AboveOneOf(g: CommitGraph, x: CommitId, lcas: seq<CommitId>, n: nat)
  {
    exists i :: 0 <= i < n && i < |lcas| && IsAncestor(g, x, lcas[i])
  }

  lemma CoversFirstStep(g: CommitGraph, cmt: CommitId, lcas: seq<CommitId>, n: nat,
                        next: seq<CommitId>, res: seq<CommitId>)
    requires n < |lcas| && CoversFirst(g, cmt, lcas, n, next) && Covers(g, cmt, [lcas[n]], res)
    ensures CoversFirst(g, cmt, lcas, n + 1, next + res)
  {
    forall x | IsAncestor(g, x, cmt) && AboveOneOf(g, x, lcas, n + 1)
      ensures exists l :: l in next + res && IsAncestor(g, x, l)
    {
      if IsAncestor(g, x, lcas[n]) {
        var one := [lcas[n]];
        assert IsAncestor(g, x, one[0]);
        assert IsAncestorOfSome(g, x, one);
        var l :| l in res && IsAncestor(g, x, l);
        assert l in next + res;
      } else {
        assert AboveOneOf(g, x, lcas, n);
        var l :| l in next && IsAncestor(g, x, l);
        assert l in next + res;
      }
    }
  }

  /** A step of the octopus fold keeps every candidate an ancestor of every
      id seen so far. */
  lemma FoldSound(g: CommitGraph, ids: seq<CommitId>, k: nat, lcas: seq<CommitId>, next: seq<CommitId>)
    requires k < |ids|
    requires forall c, m :: c in lcas && 0 <= m < k ==> IsAncestor(g, c, ids[m])
    requires forall c :: c in next ==> IsAncestor(g, c, ids[k]) && IsAncestorOfSome(g, c, lcas)
    ensures forall c, m :: c in next && 0 <= m <= k ==> IsAncestor(g, c, ids[m])
  {
    forall c, m | c in next && 0 <= m < k
      ensures IsAncestor(g, c, ids[m])
    {
      var j :| 0 <= j < |lcas| && IsAncestor(g, c, lcas[j]);
      assert lcas[j] in lcas;
      AncestorTrans(g, c, lcas[j], ids[m]);
    }
  }

  /** A step of the octopus fold keeps every common ancestor of the ids seen
      so far at or below a candidate. */
  lemma FoldCovers(g: CommitGraph, ids: seq<CommitId>, k: nat, lcas: seq<CommitId>, next: seq<CommitId>)
    requires 0 < k < |ids|
    requires CoversAll(g, ids[..k], lcas) && Covers(g, ids[k], lcas, next)
    ensures CoversAll(g, ids[..k + 1], next)
  {
    var pre, pre' := ids[..k], ids[..k + 1];
    forall x | AncestorOfAll(g, x, pre')
      ensures exists l :: l in next && IsAncestor(g, x, l)
    {
      assert AncestorOfAll(g, x, pre) by {
        forall m | 0 <= m < k ensures IsAncestor(g, x, pre[m]) {
          assert pre[m] == pre'[m];
        }
      }
      var l :| l in lcas && IsAncestor(g, x, l);
      var i :| 0 <= i < |lcas| && lcas[i] == l;
      assert IsAncestor(g, x, pre'[k]);
      assert IsAncestorOfSome(g, x, lcas);
    }
  }

  /** `can_fast_forward`: true for equal commits; otherwise true exactly when
      the LCA walk bounded below by `c1`'s stamp finds `[c1]`, which makes `c1`
      an ancestor of `c2`. */
  method CanFastForward(g: CommitGraph, c1: CommitId, c2: CommitId) returns (ok: bool)
    requires Closed(g) && c1 in g.parents && c2 in g.parents
    ensures c1 == c2 ==> ok
    ensures ok ==> IsAncestor(g, c1, c2)
    ensures ok <==> c1 == c2 || LcasOf(g, c1, [c2], g.stamp[c1]) == [c1]
  {
    if c1 == c2 {
      AncestorRefl(g, c1);
      return true;
    }
    var minStamp := g.stamp[c1];
    var lcas;
    ghost var flags;
    lcas, flags := FindLcas(g, c1, [c2], minStamp);
    ok := lcas == [c1];
    if ok {
      assert c1 in lcas;
      assert IsAncestorOfSome(g, c1, [c2]);
    }
  }

  /** What a round of the walk needs of its state: a closed store, flags only
      on known commits, and queued entries and candidates that are flagged
      commits, the queued ones carrying their commit's stamp. */
  ghost predicate Walking(g: CommitGraph, cstates: map<CommitId, set<Flag>>, wlst: seq<Stamped>, cands: seq<Stamped>)
  {
    && Closed(g) && cstates.Keys <= g.parents.Keys
    && (forall e :: e in wlst ==> e.1 in cstates && e.0 == g.stamp[e.1])
    && (forall e :: e in cands ==> e.1 in cstates)
  }

  /** The loop condition of `_find_lcas`: some queued commit is not `_DNC`. */
  ghost predicate Viable(cstates: map<CommitId, set<Flag>>, wlst: seq<Stamped>)
  {
    exists e :: e in wlst && e.1 in cstates && Dnc !in cstates[e.1]
  }

  lemma SubsetCard<T>(a: set<T>, b: set<T>)
    requires a <= b
    ensures |a| <= |b|
  {
    if a != b {
      ProperSubsetCard(a, b);
    }
  }

  /** The parent loop never adds a missing flag, and removes one whenever it
      queues anything. */
  lemma QueueShrinks(g: CommitGraph, minStamp: int, cstates: map<CommitId, set<Flag>>,
                     ps: seq<CommitId>, cflags: set<Flag>)
    requires Closed(g) && cflags <= AncestryFlags && forall p :: p in ps ==> p in g.parents
    ensures Missing(g, QueueState(g, minStamp, cstates, ps, cflags)) <= Missing(g, cstates)
    ensures |Missing(g, QueueState(g, minStamp, cstates, ps, cflags))| < |Missing(g, cstates)|
            || Queued(g, minStamp, cstates, ps, cflags) == []
  {
    var after := QueueState(g, minStamp, cstates, ps, cflags);
    var q := Queued(g, minStamp, cstates, ps, cflags);
    QueueFacts(g, minStamp, cstates, ps, cflags);
    QueuedEntries(g, minStamp, cstates, ps, cflags);
    forall x | x in Missing(g, after)
      ensures x in Missing(g, cstates)
    {
      assert Flags(cstates, x.0) <= Flags(after, x.0);
    }
    if q != [] {
      var p := q[0].1;
      assert q[0] in q;
      var f :| f in cflags && f !in Flags(cstates, p);
      assert (p, f) in Missing(g, cstates);
      assert (p, f) !in Missing(g, after);
      ProperSubsetCard(Missing(g, after), Missing(g, cstates));
    }
  }

  /** A round keeps the state fit for the next one. */
  lemma StepKeepsWalking(g: CommitGraph, minStamp: int, cstates: map<CommitId, set<Flag>>,
                         wlst: seq<Stamped>, cands: seq<Stamped>)
    requires Walking(g, cstates, wlst, cands) && |wlst| > 0
    ensures Ready(g, cstates, wlst)
    ensures var s := Step(g, minStamp, cstates, wlst, cands); Walking(g, s.0, s.1, s.2)
  {
    var k := Newest(wlst);
    var cmt := wlst[k].1;
    assert wlst[k] in wlst;
    var ps := g.parents[cmt];
    assert forall p :: p in ps ==> p in g.stamp;
    var marked, cflags := Marked(cstates, cmt), Passed(cstates, cmt);
    QueueFacts(g, minStamp, marked, ps, cflags);
    QueuedEntries(g, minStamp, marked, ps, cflags);
    var s := Step(g, minStamp, cstates, wlst, cands);
    var q := Queued(g, minStamp, marked, ps, cflags);
    assert s.0 == QueueState(g, minStamp, marked, ps, cflags);
    assert s.1 == wlst[..k] + wlst[k + 1..] + q;
    forall e | e in s.1
      ensures e.1 in s.0 && e.0 == g.stamp[e.1]
    {
      if e in q {
        assert e.1 in ps && Eligible(g, minStamp, marked, e.1, cflags);
      } else {
        assert e in wlst;
      }
    }
  }

  /** A round either removes a missing flag or, adding none, shortens the
      queue: the measure that ends the walk. */
  lemma StepDecreases(g: CommitGraph, minStamp: int, cstates: map<CommitId, set<Flag>>,
                      wlst: seq<Stamped>, cands: seq<Stamped>)
    requires Walking(g, cstates, wlst, cands) && |wlst| > 0
    ensures Ready(g, cstates, wlst)
    ensures var s := Step(g, minStamp, cstates, wlst, cands);
            |Missing(g, s.0)| < |Missing(g, cstates)|
            || (|Missing(g, s.0)| == |Missing(g, cstates)| && |s.1| < |wlst|)
  {
    var k := Newest(wlst);
    var cmt := wlst[k].1;
    assert wlst[k] in wlst;
    var ps := g.parents[cmt];
    var marked, cflags := Marked(cstates, cmt), Passed(cstates, cmt);
    if BothSides(cstates[cmt]) && Lca !in cstates[cmt] {
      MarkLcaKeepsMissing(g, cstates, cmt);
    }
    assert Missing(g, marked) == Missing(g, cstates);
    QueueShrinks(g, minStamp, marked, ps, cflags);
    var s := Step(g, minStamp, cstates, wlst, cands);
    var q := Queued(g, minStamp, marked, ps, cflags);
    assert s.0 == QueueState(g, minStamp, marked, ps, cflags);
    assert |s.1| == |wlst| - 1 + |q|;
    SubsetCard(Missing(g, s.0), Missing(g, cstates));
  }

  /** `_find_lcas`'s main loop as a definition: rounds are taken while some
      queued commit is not `_DNC`; the result is the final flags and
      candidates. */
  ghost function Walk(g: CommitGraph, minStamp: int, cstates: map<CommitId, set<Flag>>,
                      wlst: seq<Stamped>, cands: seq<Stamped>): (r: (map<CommitId, set<Flag>>, seq<Stamped>))
    requires Walking(g, cstates, wlst, cands)
    ensures r.0.Keys <= g.parents.Keys && forall e :: e in r.1 ==> e.1 in r.0
    decreases |Missing(g, cstates)|, |wlst|
  {
    if !Viable(cstates, wlst) then (cstates, cands)
    else
      StepKeepsWalking(g, minStamp, cstates, wlst, cands);
      StepDecreases(g, minStamp, cstates, wlst, cands);
      var s := Step(g, minStamp, cstates, wlst, cands);
      Walk(g, minStamp, s.0, s.1, s.2)
  }

  lemma WalkUnfold(g: CommitGraph, minStamp: int, cstates: map<CommitId, set<Flag>>,
                   wlst: seq<Stamped>, cands: seq<Stamped>)
    requires Walking(g, cstates, wlst, cands) && Viable(cstates, wlst)
    ensures Ready(g, cstates, wlst)
    ensures var s := Step(g, minStamp, cstates, wlst, cands);
            Walking(g, s.0, s.1, s.2) && Walk(g, minStamp, cstates, wlst, cands) == Walk(g, minStamp, s.0, s.1, s.2)
  {
    StepKeepsWalking(g, minStamp, cstates, wlst, cands);
  }

  lemma StartWalking(g: CommitGraph, c1: CommitId, c2s: seq<CommitId>)
    requires Closed(g) && c1 in g.parents && forall c :: c in c2s ==> c in g.parents
    ensures Walking(g, StartFlags(c1, c2s), Stamps(g, [c1] + c2s), [])
  {
    StartFlagsMeaning(c1, c2s);
    var cs := [c1] + c2s;
    var st := Stamps(g, cs);
    forall e | e in st
      ensures e.1 in StartFlags(c1, c2s) && e.0 == g.stamp[e.1]
    {
      var j :| 0 <= j < |st| && st[j] == e;
      assert cs[j] == c1 || cs[j] in c2s;
    }
  }

  /** The results of `_find_lcas` from its final flags and candidates: the
      candidates not marked `_DNC`, each once, sorted by stamp. */
  function LcasFrom(cstates: map<CommitId, set<Flag>>, cands: seq<Stamped>): seq<CommitId>
  {
    CandIds(SortByStamp(SurvivorsOf(cands, cstates)))
  }

  /** Every result is the commit of a candidate. */
  lemma LcasFromCands(cstates: map<CommitId, set<Flag>>, cands: seq<Stamped>)
    ensures forall c :: c in LcasFrom(cstates, cands) ==> exists e :: e in cands && e.1 == c
  {
    var sv := SurvivorsOf(cands, cstates);
    var sorted := SortByStamp(sv);
    forall c | c in CandIds(sorted)
      ensures exists e :: e in cands && e.1 == c
    {
      var j :| 0 <= j < |sorted| && CandIds(sorted)[j] == c;
      assert sorted[j] in multiset(sorted);
    }
  }

  /** The final flags and candidates of `_find_lcas(c1, c2s, min_stamp)`. */
  ghost function WalkFrom(g: CommitGraph, c1: CommitId, c2s: seq<CommitId>, minStamp: int): (r: (map<CommitId, set<Flag>>, seq<Stamped>))
    requires Closed(g) && c1 in g.parents && forall c :: c in c2s ==> c in g.parents
    ensures r.0.Keys <= g.parents.Keys && forall e :: e in r.1 ==> e.1 in r.0
  {
    StartWalking(g, c1, c2s);
    Walk(g, minStamp, StartFlags(c1, c2s), Stamps(g, [c1] + c2s), [])
  }

  /** `_find_lcas(c1, c2s, min_stamp)` as a definition. */
  ghost function LcasOf(g: CommitGraph, c1: CommitId, c2s: seq<CommitId>, minStamp: int): (r: seq<CommitId>)
    requires Closed(g) && c1 in g.parents && forall c :: c in c2s ==> c in g.parents
    ensures forall c :: c in r ==> c in g.parents
  {
    var w := WalkFrom(g, c1, c2s, minStamp);
    LcasFromCands(w.0, w.1);
    LcasFrom(w.0, w.1)
  }

  /** `find_merge_base(repo, ids)` as a definition. */
  ghost function MergeBaseOf(g: CommitGraph, ids: seq<CommitId>): (r: seq<CommitId>)
    requires Closed(g) && forall c :: c in ids ==> c in g.parents
    ensures forall c :: c in r ==> c in g.parents
  {
    if ids == [] then []
    else if |ids| == 1 || ids[0] in ids[1..] then [ids[0]]
    else LcasOf(g, ids[0], ids[1..], 0)
  }
}
