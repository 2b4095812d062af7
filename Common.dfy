/** Vocabulary shared by every part of the merge engine: optional values, bytes,
    Python's clamping slices and joins, the scalar three-way merge rule, and the
    byte-wise order in which paths are sorted. */
module Common {

  datatype Option<+T> = None | Some(value: T)

  newtype byte = b: int | 0 <= b < 256

  /** Raw file content and path names are byte strings. */
  type Bytes = seq<byte>

  /** ASCII text as bytes (used for the conflict markers). */
  function Ascii(s: string): (r: Bytes)
    requires forall i :: 0 <= i < |s| ==> s[i] as int < 256
    ensures |r| == |s|
    ensures forall i :: 0 <= i < |s| ==> r[i] as int == s[i] as int
  {
    seq(|s|, i requires 0 <= i < |s| => s[i] as int as byte)
  }

  function Min(a: int, b: int): int { if a <= b then a else b }

  /** Python's `s[lo:hi]` for non-negative bounds: both bounds are clamped to
      `|s|`, and a range whose end lies before its start is empty. */
  function Slice<T>(s: seq<T>, lo: nat, hi: nat): (r: seq<T>)
    ensures lo <= hi <= |s| ==> r == s[lo..hi]
    ensures hi <= lo ==> r == []
    ensures |s| <= lo ==> r == []
    ensures lo <= |s| <= hi ==> r == s[lo..]
  {
    var l := Min(lo, |s|);
    var h := Min(hi, |s|);
    if h <= l then [] else s[l..h]
  }

  /** Adjacent slices glue together: `s[x:y] + s[y:z] == s[x:z]` whenever the
      cursor `y` lies inside the sequence. */
  lemma SliceSplit<T>(s: seq<T>, x: nat, y: nat, z: nat)
    requires x <= y <= z && y <= |s|
    ensures Slice(s, x, y) + Slice(s, y, z) == Slice(s, x, z)
  {
    if z <= |s| {
      assert s[x..y] + s[y..z] == s[x..z];
    } else {
      assert s[x..y] + s[y..] == s[x..];
    }
  }

  /** `b''.join(parts)`: the parts concatenated in order. */
  function Concat<T>(parts: seq<seq<T>>): (r: seq<T>)
    ensures parts == [] ==> r == []
  {
    if parts == [] then [] else Concat(parts[..|parts| - 1]) + parts[|parts| - 1]
  }

  lemma AppendAssoc<T>(a: seq<T>, b: seq<T>, c: seq<T>)
    ensures a + (b + c) == (a + b) + c
  {
  }

  lemma ConcatAppend<T>(parts: seq<seq<T>>, p: seq<T>)
    ensures Concat(parts + [p]) == Concat(parts) + p
  {
    assert (parts + [p])[..|parts|] == parts;
  }

  lemma {:induction false} ConcatOfConcat<T>(xs: seq<seq<T>>, ys: seq<seq<T>>)
    ensures Concat(xs + ys) == Concat(xs) + Concat(ys)
  {
    if ys == [] {
      assert xs + ys == xs;
    } else {
      var init := ys[..|ys| - 1];
      var last := ys[|ys| - 1];
      assert ys == init + [last];
      assert xs + ys == (xs + init) + [last];
      ConcatOfConcat(xs, init);
      ConcatAppend(xs + init, last);
      ConcatAppend(init, last);
    }
  }

  /** The elements of `s` that satisfy `p`, in order (a list comprehension
      with a condition). */
  function Filter<T>(s: seq<T>, p: T -> bool): seq<T>
  {
    if s == [] then []
    else Filter(s[..|s| - 1], p) + (if p(s[|s| - 1]) then [s[|s| - 1]] else [])
  }

  /** An element is kept exactly when it is in `s` and satisfies `p`. */
  lemma {:induction false} FilterMembers<T>(s: seq<T>, p: T -> bool)
    ensures forall x :: x in Filter(s, p) <==> x in s && p(x)
  {
    if s != [] {
      var front := s[..|s| - 1];
      FilterMembers(front, p);
      assert s == front + [s[|s| - 1]];
    }
  }

  lemma FilterAppend<T>(s: seq<T>, x: T, p: T -> bool)
    ensures Filter(s + [x], p) == Filter(s, p) + (if p(x) then [x] else [])
  {
    assert (s + [x])[..|s|] == s;
  }

  lemma {:induction false} FilterConcat<T>(s: seq<T>, t: seq<T>, p: T -> bool)
    ensures Filter(s + t, p) == Filter(s, p) + Filter(t, p)
  {
    if t == [] {
      assert s + t == s;
    } else {
      var init := t[..|t| - 1];
      assert s + t == (s + init) + [t[|t| - 1]];
      assert t == init + [t[|t| - 1]];
      FilterConcat(s, init, p);
      FilterAppend(s + init, t[|t| - 1], p);
      FilterAppend(init, t[|t| - 1], p);
    }
  }

  /** The set of a list's elements, `set(s)`. */
  function Elements<T(!new)>(s: seq<T>): (r: set<T>)
    ensures forall x :: x in r <==> x in s
  {
    if s == [] then {} else Elements(s[..|s| - 1]) + {s[|s| - 1]}
  }

  /** `s.reverse()`. */
  function Reverse<T>(s: seq<T>): (r: seq<T>)
    ensures |r| == |s|
    ensures forall i :: 0 <= i < |s| ==> r[i] == s[|s| - 1 - i]
  {
    if s == [] then [] else [s[|s| - 1]] + Reverse(s[..|s| - 1])
  }

  /** Reversing keeps the elements. */
  lemma ReverseMembers<T>(s: seq<T>)
    ensures forall x :: x in Reverse(s) <==> x in s
  {
    forall x | x in s ensures x in Reverse(s) {
      var i :| 0 <= i < |s| && s[i] == x;
      assert Reverse(s)[|s| - 1 - i] == x;
    }
  }

  /** The classical three-way rule for one value: a change made on one side
      only wins, an identical change on both sides is taken once, and two
      different changes have no merge (`None`). */
  function Merge3<T(==)>(base: T, ours: T, theirs: T): Option<T>
  {
    if ours == theirs then Some(ours)
    else if ours == base then Some(theirs)
    else if theirs == base then Some(ours)
    else None
  }

  /** The scalar rule does not depend on which side is called "ours". */
  lemma Merge3Symmetric<T>(base: T, ours: T, theirs: T)
    ensures Merge3(base, ours, theirs) == Merge3(base, theirs, ours)
  {
  }

  /** Strict byte-wise lexicographic order, the order of Python's `bytes`
      comparison: a proper prefix comes first. */
  predicate LexLess(a: Bytes, b: Bytes)
  {
    |b| > 0 && (|a| == 0 || a[0] < b[0] || (a[0] == b[0] && LexLess(a[1..], b[1..])))
  }

  lemma {:induction false} LexIrreflexive(a: Bytes)
    ensures !LexLess(a, a)
  {
    if |a| > 0 { LexIrreflexive(a[1..]); }
  }

  lemma {:induction false} LexTransitive(a: Bytes, b: Bytes, c: Bytes)
    requires LexLess(a, b) && LexLess(b, c)
    ensures LexLess(a, c)
  {
    if |a| > 0 && a[0] == b[0] && b[0] == c[0] {
      LexTransitive(a[1..], b[1..], c[1..]);
    }
  }

  lemma {:induction false} LexTotal(a: Bytes, b: Bytes)
    requires a != b
    ensures LexLess(a, b) || LexLess(b, a)
  {
    if |a| > 0 && |b| > 0 && a[0] == b[0] {
      assert a == [a[0]] + a[1..] && b == [b[0]] + b[1..];
      LexTotal(a[1..], b[1..]);
    }
  }

  lemma LexAsymmetric(a: Bytes, b: Bytes)
    requires LexLess(a, b)
    ensures !LexLess(b, a)
  {
    if LexLess(b, a) {
      LexTransitive(a, b, a);
      LexIrreflexive(a);
    }
  }

  /** Every element strictly precedes every later one. */
  predicate StrictlySorted(s: seq<Bytes>)
  {
    forall i, j :: 0 <= i < j < |s| ==> LexLess(s[i], s[j])
  }

  /** One step of insertion sort. */
  function InsertPath(x: Bytes, s: seq<Bytes>): (r: seq<Bytes>)
  {
    if s == [] || LexLess(x, s[0]) then [x] + s else [s[0]] + InsertPath(x, s[1..])
  }

  lemma {:induction false} InsertPathCorrect(x: Bytes, s: seq<Bytes>)
    requires StrictlySorted(s) && x !in s
    ensures StrictlySorted(InsertPath(x, s))
    ensures multiset(InsertPath(x, s)) == multiset(s) + multiset{x}
  {
    if s == [] || LexLess(x, s[0]) {
      forall j | 0 < j < |s| + 1
        ensures LexLess(x, ([x] + s)[j])
      {
        if j > 1 { LexTransitive(x, s[0], s[j - 1]); }
      }
    } else {
      assert s == [s[0]] + s[1..];
      LexTotal(x, s[0]);
      InsertPathCorrect(x, s[1..]);
      var t := InsertPath(x, s[1..]);
      forall k | 0 <= k < |t|
        ensures LexLess(s[0], t[k])
      {
        assert t[k] in multiset(t);
        if t[k] != x {
          assert t[k] in s[1..];
          var m :| 0 <= m < |s[1..]| && s[1..][m] == t[k];
          assert s[m + 1] == t[k];
        }
      }
    }
  }

  /** `paths.sort()` on a list of distinct paths. */
  function SortPaths(s: seq<Bytes>): (r: seq<Bytes>)
  {
    if s == [] then [] else InsertPath(s[0], SortPaths(s[1..]))
  }

  /** Sorting distinct paths yields the same paths in strictly ascending order. */
  lemma {:induction false} SortPathsCorrect(s: seq<Bytes>)
    requires forall i, j :: 0 <= i < j < |s| ==> s[i] != s[j]
    ensures StrictlySorted(SortPaths(s))
    ensures multiset(SortPaths(s)) == multiset(s)
  {
    if s != [] {
      assert s == [s[0]] + s[1..];
      SortPathsCorrect(s[1..]);
      assert s[0] !in s[1..] by {
        forall m | 0 <= m < |s[1..]| ensures s[1..][m] != s[0] { assert s[1..][m] == s[m + 1]; }
      }
      assert s[0] !in multiset(SortPaths(s[1..]));
      InsertPathCorrect(s[0], SortPaths(s[1..]));
    }
  }
}
