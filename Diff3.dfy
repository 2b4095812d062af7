/** The line-based three-way merge of diff3merge.py: two diffs from the
    ancestor (to alice and to bob) become match maps, three cursors walk
    the files cutting stable and unstable chunks, and each chunk is
    resolved or written out as a conflict block. */
module Diff3 {
  import opened Common
  import opened TreeTypes

  /** The two-character prefix of a diff line: `'  '` (in both), `'+ '`
      (only in the new file), `'- '` (only in the ancestor), or anything
      else (ndiff's `'? '` hints), which is skipped. */
  datatype Tag = Keep | Insert | Remove | Other

  /** Ancestor lines covered by a diff. */
  function OldCount(tags: seq<Tag>): nat
  {
    if tags == [] then 0
    else OldCount(tags[..|tags| - 1]) + (if tags[|tags| - 1].Keep? || tags[|tags| - 1].Remove? then 1 else 0)
  }

  /** New-file lines covered by a diff. */
  function NewCount(tags: seq<Tag>): nat
  {
    if tags == [] then 0
    else NewCount(tags[..|tags| - 1]) + (if tags[|tags| - 1].Keep? || tags[|tags| - 1].Insert? then 1 else 0)
  }

  /** A match map maps strictly increasing 1-based ancestor line numbers to
      strictly increasing 1-based line numbers of the other file. */
  predicate Increasing(m: map<int, int>)
  {
    forall k1, k2 :: k1 in m && k2 in m && k1 < k2 ==> m[k1] < m[k2]
  }

  predicate Fits(m: map<int, int>, oldLen: int, newLen: int)
  {
    && (forall k :: k in m ==> 1 <= k <= oldLen && 1 <= m[k] <= newLen)
    && Increasing(m)
  }

  /** The match map of a diff: every `'  '` line pairs the ancestor's line
      number with the other file's. */
  function MatchMap(tags: seq<Tag>): (m: map<int, int>)
    ensures Fits(m, OldCount(tags), NewCount(tags))
  {
    if tags == [] then map[]
    else
      var init := tags[..|tags| - 1];
      var m := MatchMap(init);
      if tags[|tags| - 1].Keep? then m[OldCount(init) + 1 := NewCount(init) + 1] else m
  }

  /** A match map that pairs every ancestor line with the same line
      number of the other file. */
  predicate Identity(m: map<int, int>)
  {
    forall k :: k in m ==> m[k] == k
  }

  /** A diff made only of `'  '` lines pairs each ancestor line with the
      same line of the other file. */
  lemma {:induction false} KeepOnlyIdentity(tags: seq<Tag>)
    requires forall k :: 0 <= k < |tags| ==> tags[k] == Keep
    ensures OldCount(tags) == NewCount(tags) == |tags|
    ensures Identity(MatchMap(tags))
  {
    if tags != [] {
      KeepOnlyIdentity(tags[..|tags| - 1]);
    }
  }

  /** `_myers_matches`, `_ndiff_matches` and `_histogram_matches`: the same
      counting loop over the tag stream each differ produces. */
  method Matches(tags: seq<Tag>) returns (m: map<int, int>)
    ensures m == MatchMap(tags)
  {
    var on, dn := 0, 0;
    m := map[];
    for i := 0 to |tags|
      invariant on == OldCount(tags[..i]) && dn == NewCount(tags[..i])
      invariant m == MatchMap(tags[..i])
    {
      assert tags[..i + 1][..i] == tags[..i];
      match tags[i]
      case Keep =>
        on := on + 1;
        dn := dn + 1;
        m := m[on := dn];
      case Insert =>
        dn := dn + 1;
      case Remove =>
        on := on + 1;
      case Other =>
    }
    assert tags[..|tags|] == tags;
  }

  /** The strategies that settle a clash for alice or for bob. */
  predicate KeepsOurs(s: Strategy) { s == OrtOurs || s == ResolveOurs }

  predicate KeepsTheirs(s: Strategy) { s == OrtTheirs || s == ResolveTheirs }

  /** The same strategy seen from the other side. */
  function Swapped(s: Strategy): Strategy
  {
    match s
    case OrtOurs => OrtTheirs
    case OrtTheirs => OrtOurs
    case ResolveOurs => ResolveTheirs
    case ResolveTheirs => ResolveOurs
    case _ => s
  }

  const AliceMarker: Bytes := Ascii("<<<<<<<<< alice\n")
  const AncestorMarker: Bytes := Ascii("||||||||| ancestor\n")
  const Separator: Bytes := Ascii("========= \n")
  const BobMarker: Bytes := Ascii(">>>>>>>>> bob\n")

  /** The block written for a chunk that needs a hand merge: alice's text
      under the opening marker, the ancestor's under its marker, then bob's
      after the separator, closed by bob's marker. */
  function ConflictBlock(oc: Bytes, ac: Bytes, bc: Bytes): (r: Bytes)
    ensures var i := |AliceMarker|; var j := i + |ac| + |AncestorMarker|; var k := j + |oc| + |Separator|;
            && |r| == k + |bc| + |BobMarker|
            && r[..i] == AliceMarker && r[i..i + |ac|] == ac
            && r[i + |ac|..j] == AncestorMarker && r[j..j + |oc|] == oc
            && r[j + |oc|..k] == Separator && r[k..k + |bc|] == bc
            && r[k + |bc|..] == BobMarker
  {
    AliceMarker + ac + AncestorMarker + oc + Separator + bc + BobMarker
  }

  datatype Resolution = Resolution(text: Bytes, conflicted: bool)

  /** `_write_chunk`'s rule for the texts of one chunk: wherever the scalar
      three-way rule has an answer, that answer; otherwise the strategy's
      side, or a conflict block with alice's, the ancestor's and bob's text
      in that order. */
  function ResolveChunk(strategy: Strategy, oc: Bytes, ac: Bytes, bc: Bytes): (r: Resolution)
    ensures Merge3(oc, ac, bc).Some? ==> r == Resolution(Merge3(oc, ac, bc).value, false)
    ensures r.conflicted <==> oc != ac && oc != bc && ac != bc && !KeepsOurs(strategy) && !KeepsTheirs(strategy)
    ensures Merge3(oc, ac, bc).None? && KeepsOurs(strategy) ==> r.text == ac
    ensures Merge3(oc, ac, bc).None? && KeepsTheirs(strategy) ==> r.text == bc
    ensures r.conflicted ==> r.text == ConflictBlock(oc, ac, bc)
  {
    if oc == ac && oc == bc then Resolution(oc, false)
    else if oc == ac then Resolution(bc, false)
    else if oc == bc then Resolution(ac, false)
    else if ac == bc then Resolution(ac, false)
    else if KeepsOurs(strategy) then Resolution(ac, false)
    else if KeepsTheirs(strategy) then Resolution(bc, false)
    else Resolution(ConflictBlock(oc, ac, bc), true)
  }

  /** Exchanging alice and bob, together with ours and theirs, changes no
      resolved text and no conflict decision. */
  lemma ResolveSwapped(strategy: Strategy, oc: Bytes, ac: Bytes, bc: Bytes)
    ensures ResolveChunk(Swapped(strategy), oc, bc, ac).conflicted == ResolveChunk(strategy, oc, ac, bc).conflicted
    ensures !ResolveChunk(strategy, oc, ac, bc).conflicted ==>
              ResolveChunk(Swapped(strategy), oc, bc, ac).text == ResolveChunk(strategy, oc, ac, bc).text
  {
    Merge3Symmetric(oc, ac, bc);
  }

  /** One written chunk: its three line ranges and their texts. */
  datatype Piece = Piece(ranges: ConflictRanges, o: Bytes, a: Bytes, b: Bytes)

  /** The line ranges of the chunks, in order. */
  function RangesOf(ps: seq<Piece>): (r: seq<ConflictRanges>)
    ensures |r| == |ps| && forall k :: 0 <= k < |ps| ==> r[k] == ps[k].ranges
  {
    if ps == [] then [] else RangesOf(ps[..|ps| - 1]) + [ps[|ps| - 1].ranges]
  }

  lemma RangesAppend(ps: seq<Piece>, p: Piece)
    ensures RangesOf(ps + [p]) == RangesOf(ps) + [p.ranges]
  {
    assert (ps + [p])[..|ps|] == ps;
  }

  /** Pieces whose ranges are the first rounds of a plan stay so when the
      next round's piece is added. */
  lemma RangesFollow(ps: seq<Piece>, p: Piece, plan: seq<ConflictRanges>)
    requires |ps| < |plan| && RangesOf(ps) == plan[..|ps|] && p.ranges == plan[|ps|]
    ensures RangesOf(ps + [p]) == plan[..|ps| + 1]
  {
    RangesAppend(ps, p);
    assert plan[..|ps| + 1] == plan[..|ps|] + [plan[|ps|]];
  }

  /** The ancestor's, alice's and bob's text of the chunks, in order. */
  function Olds(ps: seq<Piece>): Bytes
  {
    if ps == [] then [] else Olds(ps[..|ps| - 1]) + ps[|ps| - 1].o
  }

  function Alices(ps: seq<Piece>): Bytes
  {
    if ps == [] then [] else Alices(ps[..|ps| - 1]) + ps[|ps| - 1].a
  }

  function Bobs(ps: seq<Piece>): Bytes
  {
    if ps == [] then [] else Bobs(ps[..|ps| - 1]) + ps[|ps| - 1].b
  }

  /** What each chunk contributes to the merged text. */
  function Texts(strategy: Strategy, ps: seq<Piece>): (r: seq<Bytes>)
    ensures |r| == |ps|
  {
    if ps == [] then []
    else
      var p := ps[|ps| - 1];
      Texts(strategy, ps[..|ps| - 1]) + [ResolveChunk(strategy, p.o, p.a, p.b).text]
  }

  /** Each chunk contributes the resolution of its own texts. */
  lemma {:induction false} TextsAt(strategy: Strategy, ps: seq<Piece>)
    ensures forall k :: 0 <= k < |ps| ==> Texts(strategy, ps)[k] == ResolveChunk(strategy, ps[k].o, ps[k].a, ps[k].b).text
  {
    if ps != [] {
      TextsAt(strategy, ps[..|ps| - 1]);
    }
  }

  /** The ranges of the chunks that became conflict blocks, in order. */
  function ConflictsOf(strategy: Strategy, ps: seq<Piece>): (r: seq<ConflictRanges>)
    ensures |r| <= |ps|
  {
    if ps == [] then []
    else
      var p := ps[|ps| - 1];
      ConflictsOf(strategy, ps[..|ps| - 1]) + (if ResolveChunk(strategy, p.o, p.a, p.b).conflicted then [p.ranges] else [])
  }

  /** Under an ours or theirs strategy no conflict is ever recorded. */
  lemma {:induction false} NoConflictsForSideStrategies(strategy: Strategy, ps: seq<Piece>)
    requires KeepsOurs(strategy) || KeepsTheirs(strategy)
    ensures ConflictsOf(strategy, ps) == []
  {
    if ps != [] {
      NoConflictsForSideStrategies(strategy, ps[..|ps| - 1]);
    }
  }

  /** Where alice's text of every chunk is the ancestor's, the merge is
      bob's text, without conflicts. */
  lemma {:induction false} UnchangedAlice(strategy: Strategy, ps: seq<Piece>)
    requires forall k :: 0 <= k < |ps| ==> ps[k].o == ps[k].a
    ensures Concat(Texts(strategy, ps)) == Bobs(ps)
    ensures ConflictsOf(strategy, ps) == []
  {
    if ps != [] {
      var init := ps[..|ps| - 1];
      UnchangedAlice(strategy, init);
      assert Texts(strategy, ps) == Texts(strategy, init) + [ps[|ps| - 1].b];
      ConcatAppend(Texts(strategy, init), ps[|ps| - 1].b);
    }
  }

  /** Where bob's text of every chunk is the ancestor's, the merge is
      alice's text, without conflicts. */
  lemma {:induction false} UnchangedBob(strategy: Strategy, ps: seq<Piece>)
    requires forall k :: 0 <= k < |ps| ==> ps[k].o == ps[k].b
    ensures Concat(Texts(strategy, ps)) == Alices(ps)
    ensures ConflictsOf(strategy, ps) == []
  {
    if ps != [] {
      var init := ps[..|ps| - 1];
      UnchangedBob(strategy, init);
      assert Texts(strategy, ps) == Texts(strategy, init) + [ps[|ps| - 1].a];
      ConcatAppend(Texts(strategy, init), ps[|ps| - 1].a);
    }
  }

  /** What the chunks of pieces `ps` resolve to: no conflict under an ours
      or theirs strategy; where one side never departs from the ancestor,
      the other side's text without conflicts; and chunk by chunk, the side
      that changed. */
  lemma Resolved(strategy: Strategy, ps: seq<Piece>)
    ensures KeepsOurs(strategy) || KeepsTheirs(strategy) ==> ConflictsOf(strategy, ps) == []
    ensures (forall k :: 0 <= k < |ps| ==> ps[k].o == ps[k].a) ==>
              Concat(Texts(strategy, ps)) == Bobs(ps) && ConflictsOf(strategy, ps) == []
    ensures (forall k :: 0 <= k < |ps| ==> ps[k].o == ps[k].b) ==>
              Concat(Texts(strategy, ps)) == Alices(ps) && ConflictsOf(strategy, ps) == []
    ensures forall k :: 0 <= k < |ps| && ps[k].o == ps[k].b ==> Texts(strategy, ps)[k] == ps[k].a
    ensures forall k :: 0 <= k < |ps| && ps[k].o == ps[k].a ==> Texts(strategy, ps)[k] == ps[k].b
  {
    TextsAt(strategy, ps);
    if KeepsOurs(strategy) || KeepsTheirs(strategy) {
      NoConflictsForSideStrategies(strategy, ps);
    }
    if forall k :: 0 <= k < |ps| ==> ps[k].o == ps[k].a {
      UnchangedAlice(strategy, ps);
    }
    if forall k :: 0 <= k < |ps| ==> ps[k].o == ps[k].b {
      UnchangedBob(strategy, ps);
    }
  }

  /** The chunk bookkeeping grows by one piece at a time. */
  lemma PiecesAppend(strategy: Strategy, ps: seq<Piece>, p: Piece)
    ensures Olds(ps + [p]) == Olds(ps) + p.o
    ensures Alices(ps + [p]) == Alices(ps) + p.a
    ensures Bobs(ps + [p]) == Bobs(ps) + p.b
    ensures Texts(strategy, ps + [p]) == Texts(strategy, ps) + [ResolveChunk(strategy, p.o, p.a, p.b).text]
    ensures ConflictsOf(strategy, ps + [p])
            == ConflictsOf(strategy, ps) + (if ResolveChunk(strategy, p.o, p.a, p.b).conflicted then [p.ranges] else [])
  {
    assert (ps + [p])[..|ps|] == ps;
  }

  /** A line position in each of the ancestor, alice and bob. */
  datatype Cursors = Cursors(o: int, a: int, b: int)

  /** Where chunk ranges start and end in the three files. */
  function From(r: ConflictRanges): Cursors { Cursors(r.0.0, r.1.0, r.2.0) }

  function To(r: ConflictRanges): Cursors { Cursors(r.0.1, r.1.1, r.2.1) }

  /** Where a piece starts and ends in the three files. */
  function Starts(p: Piece): Cursors { From(p.ranges) }

  function Ends(p: Piece): Cursors { To(p.ranges) }

  /** Where the last piece ends; the top of the files when there is none. */
  function Reached(ps: seq<Piece>): Cursors
  {
    if ps == [] then Cursors(0, 0, 0) else Ends(ps[|ps| - 1])
  }

  /** Every match beyond ancestor line `on` lands beyond line `dn` of the
      other file. */
  predicate Ahead(m: map<int, int>, on: int, dn: int)
  {
    forall k :: k in m && k > on ==> m[k] > dn
  }

  /** A chunk boundary at `(o, d)` that the match map supports: either the
      last line before it matched, or the line at it does. */
  predicate Anchored(m: map<int, int>, o: int, d: int)
  {
    (o - 1 in m && m[o - 1] == d - 1) || (o in m && m[o] == d)
  }

  lemma AnchoredAhead(m: map<int, int>, o: int, d: int)
    requires Increasing(m) && Anchored(m, o, d)
    ensures Ahead(m, o - 1, d - 1)
  {
  }

  /** `Merge3Way`: the three files as lines, the two match maps, the
      cursors `on`/`an`/`bn`, and the `chunks` and `conflicts` written so
      far. `pieces` records, for the proofs, what each chunk was cut from;
      `finished` is set once the final chunk is written; `plan` is the
      ranges of the chunks `_generate_chunks` cuts, from the top of the
      files on. */
  class Merge3Way {
    const oLines: seq<Bytes>
    const aLines: seq<Bytes>
    const bLines: seq<Bytes>
    const strategy: Strategy
    const aMatches: map<int, int>
    const bMatches: map<int, int>
    ghost var plan: seq<ConflictRanges>
    var chunks: seq<Bytes>
    var conflicts: seq<ConflictRanges>
    var on: int
    var an: int
    var bn: int
    ghost var pieces: seq<Piece>
    ghost var finished: bool

    /** The match maps fit the files, the cursors lie inside them and never
        behind a match, each chunk is resolved by `ResolveChunk`, and the chunks
        cut so far cover each file up to its cursor (the whole file once
        finished). */
    ghost predicate Valid()
      reads this
    {
      Inv(chunks, conflicts, on, an, bn, pieces, finished, plan)
    }

    /** `Valid` on the values of the mutable fields. */
    ghost predicate Inv(chunks: seq<Bytes>, conflicts: seq<ConflictRanges>, on: int, an: int, bn: int,
                        ps: seq<Piece>, finished: bool, plan: seq<ConflictRanges>)
    {
      && Fit(Cursors(on, an, bn))
      && Written(chunks, conflicts, ps)
      && Chained(ps) && AllCut(ps)
      && OnPlan(on, an, bn, ps, finished, plan)
    }

    /** The chunks are the resolutions of the pieces, and the conflicts
        the ranges of those that became conflict blocks. */
    ghost predicate Written(chunks: seq<Bytes>, conflicts: seq<ConflictRanges>, ps: seq<Piece>)
    {
      chunks == Texts(strategy, ps) && conflicts == ConflictsOf(strategy, ps)
    }

    /** The pieces are the first rounds of the plan, which is paced; until the last is
        written the cursors stand where the next round starts, and once it
        is, the pieces reach past the ends of the files. */
    ghost predicate OnPlan(on: int, an: int, bn: int, ps: seq<Piece>, finished: bool, plan: seq<ConflictRanges>)
    {
      && Paced(plan)
      && |ps| <= |plan| && RangesOf(ps) == plan[..|ps|]
      && (finished <==> |ps| == |plan|)
      && (!finished ==> Reached(ps) == Cursors(on, an, bn) == From(plan[|ps|]))
      && (finished ==> Reached(ps) == Cursors(|oLines| + 1, |aLines| + 1, |bLines| + 1))
    }

    /** `plan` is the rounds of `_generate_chunks` from the top of the
        files. */
    ghost predicate Planned()
      reads this
    {
      Fit(Cursors(0, 0, 0)) && plan == Rounds(Cursors(0, 0, 0))
    }

    /** Writing the chunk from the cursors to a supported boundary ahead
        of them, and moving the cursors there, keeps the invariant. */
    lemma EmitKeepsInv(chunks: seq<Bytes>, conflicts: seq<ConflictRanges>, on: int, an: int, bn: int,
                       ps: seq<Piece>, plan: seq<ConflictRanges>, o: int, a: int, b: int,
                       chunks': seq<Bytes>, conflicts': seq<ConflictRanges>, ps': seq<Piece>)
      requires Inv(chunks, conflicts, on, an, bn, ps, false, plan)
      requires on < o && an < a && bn < b
      requires Anchored(aMatches, o, a) && Anchored(bMatches, o, b)
      requires |ps| + 1 < |plan| && plan[|ps|] == ((on, o - 1), (an, a - 1), (bn, b - 1))
      requires From(plan[|ps| + 1]) == Cursors(o - 1, a - 1, b - 1)
      requires Appended(chunks, conflicts, ps, PieceAt((on, o - 1), (an, a - 1), (bn, b - 1)), chunks', conflicts', ps')
      ensures Inv(chunks', conflicts', o - 1, a - 1, b - 1, ps', false, plan)
    {
      AnchoredAhead(aMatches, o, a);
      AnchoredAhead(bMatches, o, b);
      var p := PieceAt((on, o - 1), (an, a - 1), (bn, b - 1));
      PiecesAppend(strategy, ps, p);
      ChainedAppend(ps, p);
      RangesFollow(ps, p, plan);
    }

    /** `chunks'`, `conflicts'` and `ps'` are `chunks`, `conflicts` and
        `ps` after piece `p` is written: the piece is recorded, its
        resolution appended, and its ranges too when that is a conflict
        block. */
    ghost predicate Appended(chunks: seq<Bytes>, conflicts: seq<ConflictRanges>, ps: seq<Piece>, p: Piece,
                             chunks': seq<Bytes>, conflicts': seq<ConflictRanges>, ps': seq<Piece>)
    {
      var res := ResolveChunk(strategy, p.o, p.a, p.b);
      && ps' == ps + [p]
      && chunks' == chunks + [res.text]
      && conflicts' == conflicts + (if res.conflicted then [p.ranges] else [])
    }

    /** Writing the chunk from the cursors to the ends of the files
        completes the invariant. */
    lemma FinalKeepsInv(chunks: seq<Bytes>, conflicts: seq<ConflictRanges>, on: int, an: int, bn: int,
                        ps: seq<Piece>, plan: seq<ConflictRanges>,
                        chunks': seq<Bytes>, conflicts': seq<ConflictRanges>, ps': seq<Piece>)
      requires Inv(chunks, conflicts, on, an, bn, ps, false, plan)
      requires |ps| + 1 == |plan| && plan[|ps|] == ((on, |oLines| + 1), (an, |aLines| + 1), (bn, |bLines| + 1))
      requires Appended(chunks, conflicts, ps, PieceAt((on, |oLines| + 1), (an, |aLines| + 1), (bn, |bLines| + 1)), chunks', conflicts', ps')
      ensures Inv(chunks', conflicts', on, an, bn, ps', true, plan)
    {
      var p := PieceAt((on, |oLines| + 1), (an, |aLines| + 1), (bn, |bLines| + 1));
      PiecesAppend(strategy, ps, p);
      ChainedAppend(ps, p);
      RangesFollow(ps, p, plan);
    }

    /** Both match maps fit the three files. */
    predicate MapsFit()
    {
      Fits(aMatches, |oLines|, |aLines|) && Fits(bMatches, |oLines|, |bLines|)
    }

    /** Cursors `c` lie inside the files and never behind a match. */
    predicate Fit(c: Cursors)
    {
      && MapsFit()
      && 0 <= c.o <= |oLines| && 0 <= c.a <= |aLines| && 0 <= c.b <= |bLines|
      && Ahead(aMatches, c.o, c.a) && Ahead(bMatches, c.o, c.b)
    }

    /** A piece's ranges start inside the files and do not run
        backwards. */
    ghost predicate Spans(p: Piece)
    {
      && 0 <= p.ranges.0.0 <= p.ranges.0.1 && p.ranges.0.0 <= |oLines|
      && 0 <= p.ranges.1.0 <= p.ranges.1.1 && p.ranges.1.0 <= |aLines|
      && 0 <= p.ranges.2.0 <= p.ranges.2.1 && p.ranges.2.0 <= |bLines|
    }

    /** A piece spans its ranges and holds their slices. */
    ghost predicate WellCut(p: Piece)
    {
      Spans(p) && p == PieceAt(p.ranges.0, p.ranges.1, p.ranges.2)
    }

    /** Every piece is well cut. */
    ghost predicate AllCut(ps: seq<Piece>)
    {
      forall k {:trigger WellCut(ps[k])} :: 0 <= k < |ps| ==> WellCut(ps[k])
    }

    /** The pieces span their ranges, the first starts at the top of every
        file, and each starts where the one before it ended. */
    ghost predicate Chained(ps: seq<Piece>)
    {
      ps == [] || (Chained(ps[..|ps| - 1]) && Spans(ps[|ps| - 1]) && Starts(ps[|ps| - 1]) == Reached(ps[..|ps| - 1]))
    }

    lemma ChainedAppend(ps: seq<Piece>, p: Piece)
      requires Chained(ps) && AllCut(ps) && WellCut(p) && Starts(p) == Reached(ps)
      ensures Chained(ps + [p]) && AllCut(ps + [p]) && Reached(ps + [p]) == Ends(p)
    {
      assert (ps + [p])[..|ps|] == ps;
      forall k | 0 <= k < |ps| + 1
        ensures WellCut((ps + [p])[k])
      {
        if k < |ps| {
          assert WellCut(ps[k]);
        }
      }
    }

    /** Chained pieces hold, in order, every line of each file up to where
        the last one ends. */
    lemma {:induction false} ChainedCovers(ps: seq<Piece>)
      requires Chained(ps) && AllCut(ps)
      ensures Olds(ps) == Concat(Slice(oLines, 0, Reached(ps).o))
      ensures Alices(ps) == Concat(Slice(aLines, 0, Reached(ps).a))
      ensures Bobs(ps) == Concat(Slice(bLines, 0, Reached(ps).b))
    {
      if ps != [] {
        var init := ps[..|ps| - 1];
        var p := ps[|ps| - 1];
        assert WellCut(p);
        forall k | 0 <= k < |init|
          ensures WellCut(init[k])
        {
          assert WellCut(ps[k]);
        }
        ChainedCovers(init);
        SliceSplit(oLines, 0, p.ranges.0.0, p.ranges.0.1);
        ConcatOfConcat(Slice(oLines, 0, p.ranges.0.0), Slice(oLines, p.ranges.0.0, p.ranges.0.1));
        SliceSplit(aLines, 0, p.ranges.1.0, p.ranges.1.1);
        ConcatOfConcat(Slice(aLines, 0, p.ranges.1.0), Slice(aLines, p.ranges.1.0, p.ranges.1.1));
        SliceSplit(bLines, 0, p.ranges.2.0, p.ranges.2.1);
        ConcatOfConcat(Slice(bLines, 0, p.ranges.2.0), Slice(bLines, p.ranges.2.0, p.ranges.2.1));
      }
    }

    /** `Merge3Way(alice, bob, ancestor, diff_type, strategy)` given the
        three files' lines and the differ's output for ancestor-to-alice
        and ancestor-to-bob. */
    constructor(alice: seq<Bytes>, bob: seq<Bytes>, ancestor: seq<Bytes>,
                aliceDiff: seq<Tag>, bobDiff: seq<Tag>, strategy: Strategy)
      requires OldCount(aliceDiff) == |ancestor| && NewCount(aliceDiff) == |alice|
      requires OldCount(bobDiff) == |ancestor| && NewCount(bobDiff) == |bob|
      ensures Valid() && !finished && Planned()
      ensures oLines == ancestor && aLines == alice && bLines == bob && this.strategy == strategy
      ensures aMatches == MatchMap(aliceDiff) && bMatches == MatchMap(bobDiff)
      ensures chunks == [] && conflicts == [] && on == 0 && an == 0 && bn == 0 && pieces == []
    {
      oLines := ancestor;
      aLines := alice;
      bLines := bob;
      this.strategy := strategy;
      var am := Matches(aliceDiff);
      var bm := Matches(bobDiff);
      aMatches := am;
      bMatches := bm;
      chunks := [];
      conflicts := [];
      on, an, bn := 0, 0, 0;
      pieces := [];
      finished := false;
      new;
      plan := Rounds(Cursors(0, 0, 0));
      RoundsPaced(Cursors(0, 0, 0));
    }

    /** `get_conflicts`: one `(o_range, a_range, b_range)` per chunk that
        became a conflict block, in the order written. */
    method GetConflicts() returns (r: seq<ConflictRanges>)
      requires Valid()
      ensures r == ConflictsOf(strategy, pieces)
    {
      return conflicts;
    }

    /** The most lines any of the three files has left after cursors `c`. */
    function Room(c: Cursors): int
    {
      var o, a, b := |oLines| - c.o, |aLines| - c.a, |bLines| - c.b;
      if o >= a && o >= b then o else if a >= b then a else b
    }

    /** `_inbounds(i)` at cursors `c`: offset `i` from them is inside at
        least one of the three files, that is, within the longest rest. */
    predicate Inbounds(c: Cursors, i: int): (r: bool)
      ensures r <==> i <= Room(c)
    {
      c.o + i <= |oLines| || c.a + i <= |aLines| || c.b + i <= |bLines|
    }

    /** `_ismatch(matchdict, offset, i)` with the ancestor cursor at `o`: a
        line matched there is a chunk boundary the map supports, and every
        later ancestor line that matches lands after it. */
    predicate IsMatch(m: map<int, int>, o: int, offset: int, i: int): (r: bool)
      ensures r ==> o + i in m && Anchored(m, o + i + 1, offset + i + 1)
      ensures r && Increasing(m) ==> Ahead(m, o + i, offset + i)
    {
      o + i in m && m[o + i] == offset + i
    }

    /** Offset `i` from `c` is in bounds and both sides match the ancestor
        there. */
    predicate Aligned(c: Cursors, i: int)
    {
      Inbounds(c, i) && IsMatch(aMatches, c.o, c.a, i) && IsMatch(bMatches, c.o, c.b, i)
    }

    /** What `_find_next_mismatch`'s loop returns from offset `i` on: the
        first offset that is in bounds but not aligned, or `None` once the
        offsets leave all three files. */
    function MismatchFrom(c: Cursors, i: int): (r: Option<int>)
      requires 0 <= c.o && 0 <= c.a && 0 <= c.b
      ensures r.Some? ==> r.value >= i && Inbounds(c, r.value) && !Aligned(c, r.value)
      decreases |oLines| + |aLines| + |bLines| - i
    {
      if !Inbounds(c, i) then None
      else if !(IsMatch(aMatches, c.o, c.a, i) && IsMatch(bMatches, c.o, c.b, i)) then Some(i)
      else MismatchFrom(c, i + 1)
    }

    /** Every offset before the one `MismatchFrom` finds is aligned; with
        none found, every in-bounds offset is. */
    lemma {:induction false} MismatchFromAligned(c: Cursors, i: int)
      requires 0 <= c.o && 0 <= c.a && 0 <= c.b
      ensures var r := MismatchFrom(c, i);
              && (r.Some? ==> forall j :: i <= j < r.value ==> Aligned(c, j))
              && (r.None? ==> forall j :: i <= j && Inbounds(c, j) ==> Aligned(c, j))
      decreases |oLines| + |aLines| + |bLines| - i
    {
      if Inbounds(c, i) && IsMatch(aMatches, c.o, c.a, i) && IsMatch(bMatches, c.o, c.b, i) {
        MismatchFromAligned(c, i + 1);
      }
    }

    /** What `_find_next_match`'s loop stops at from ancestor line `o` on:
        the first line both sides match, or the line past the ancestor. */
    function NextCommon(o: int): (r: int)
      requires o <= |oLines| + 1
      ensures o <= r <= |oLines| + 1
      ensures r <= |oLines| ==> r in aMatches && r in bMatches
      decreases |oLines| + 1 - o
    {
      if o > |oLines| || (o in aMatches && o in bMatches) then o else NextCommon(o + 1)
    }

    /** No ancestor line that `NextCommon` passes over is matched on both
        sides. */
    lemma {:induction false} NextCommonSkips(o: int)
      requires o <= |oLines| + 1
      ensures forall k :: o <= k < NextCommon(o) ==> !(k in aMatches && k in bMatches)
      decreases |oLines| + 1 - o
    {
      if !(o > |oLines| || (o in aMatches && o in bMatches)) {
        NextCommonSkips(o + 1);
      }
    }

    /** `_find_next_mismatch`: the least offset `i >= 1` that is in bounds
        but not matched on both sides, or `None` when every in-bounds offset
        matches. */
    method FindNextMismatch() returns (r: Option<int>)
      requires Valid()
      ensures r == MismatchFrom(Cursors(on, an, bn), 1)
      ensures r.Some? ==> && r.value >= 1 && Inbounds(Cursors(on, an, bn), r.value) && !Aligned(Cursors(on, an, bn), r.value)
                          && forall j :: 1 <= j < r.value ==> Aligned(Cursors(on, an, bn), j)
      ensures r.None? ==> forall j :: 1 <= j && Inbounds(Cursors(on, an, bn), j) ==> Aligned(Cursors(on, an, bn), j)
    {
      var c := Cursors(on, an, bn);
      var i := 1;
      while Inbounds(c, i) && IsMatch(aMatches, on, an, i) && IsMatch(bMatches, on, bn, i)
        invariant i >= 1
        invariant MismatchFrom(c, i) == MismatchFrom(c, 1)
        decreases |oLines| + |aLines| + |bLines| + 1 - i
      {
        i := i + 1;
      }
      MismatchFromAligned(c, 1);
      if Inbounds(c, i) {
        return Some(i);
      }
      return None;
    }

    /** `_find_next_match`: the first ancestor line after the cursor that
        both sides match, or the line past the ancestor's end; with the
        matching lines of alice and bob when there are any. */
    method FindNextMatch() returns (ov: int, av: Option<int>, bv: Option<int>)
      requires Valid()
      ensures ov == NextCommon(on + 1)
      ensures on < ov <= |oLines| + 1
      ensures forall k :: on < k < ov ==> !(k in aMatches && k in bMatches)
      ensures ov <= |oLines| <==> av.Some? && bv.Some?
      ensures av.Some? <==> ov in aMatches
      ensures bv.Some? <==> ov in bMatches
      ensures av.Some? ==> av.value == aMatches[ov]
      ensures bv.Some? ==> bv.value == bMatches[ov]
    {
      ov := on + 1;
      while true
        invariant on < ov <= |oLines| + 1
        invariant NextCommon(ov) == NextCommon(on + 1)
        decreases |oLines| + 1 - ov
      {
        if ov > |oLines| {
          break;
        }
        if ov in aMatches && ov in bMatches {
          break;
        }
        ov := ov + 1;
      }
      NextCommonSkips(on + 1);
      av, bv := None, None;
      if ov in aMatches {
        av := Some(aMatches[ov]);
      }
      if ov in bMatches {
        bv := Some(bMatches[ov]);
      }
    }

    /** The piece cut by the given ranges. */
    function PieceAt(oRange: LineRange, aRange: LineRange, bRange: LineRange): Piece
      requires 0 <= oRange.0 && 0 <= oRange.1 && 0 <= aRange.0 && 0 <= aRange.1 && 0 <= bRange.0 && 0 <= bRange.1
    {
      Piece((oRange, aRange, bRange),
            Concat(Slice(oLines, oRange.0, oRange.1)),
            Concat(Slice(aLines, aRange.0, aRange.1)),
            Concat(Slice(bLines, bRange.0, bRange.1)))
    }

    /** One round of `_generate_chunks` from cursors `c`: the ranges of the
        chunk it writes and the cursors it leaves, or `None` when that chunk
        is the final one. With no mismatch left the rest is the final chunk;
        a mismatch right after the cursors cuts an unstable chunk up to the
        next line both sides match (the final chunk when there is none); a
        later mismatch cuts the run of matching lines before it. */
    function Round(c: Cursors): (r: (ConflictRanges, Option<Cursors>))
      requires Fit(c)
      ensures r.0.0.0 == c.o && r.0.1.0 == c.a && r.0.2.0 == c.b
      ensures r.1.None? ==> r.0.0.1 == |oLines| + 1 && r.0.1.1 == |aLines| + 1 && r.0.2.1 == |bLines| + 1
      ensures r.1.Some? ==> && r.1.value == Cursors(r.0.0.1, r.0.1.1, r.0.2.1) && Fit(r.1.value)
                            && r.1.value.o + r.1.value.a + r.1.value.b > c.o + c.a + c.b
    {
      var last := (((c.o, |oLines| + 1), (c.a, |aLines| + 1), (c.b, |bLines| + 1)), None);
      match MismatchFrom(c, 1)
      case None => last
      case Some(i) =>
        if i == 1 then
          var ov := NextCommon(c.o + 1);
          if ov in aMatches && ov in bMatches && aMatches[ov] != 0 && bMatches[ov] != 0 then
            AnchoredAhead(aMatches, ov, aMatches[ov]);
            AnchoredAhead(bMatches, ov, bMatches[ov]);
            var d := Cursors(ov - 1, aMatches[ov] - 1, bMatches[ov] - 1);
            (((c.o, d.o), (c.a, d.a), (c.b, d.b)), Some(d))
          else last
        else
          MismatchFromAligned(c, 1);
          assert Aligned(c, i - 1);
          AnchoredAhead(aMatches, c.o + i, c.a + i);
          AnchoredAhead(bMatches, c.o + i, c.b + i);
          var d := Cursors(c.o + i - 1, c.a + i - 1, c.b + i - 1);
          (((c.o, d.o), (c.a, d.a), (c.b, d.b)), Some(d))
    }

    /** With no mismatch left, the round writes the final chunk. */
    lemma RoundFinal(c: Cursors)
      requires Fit(c) && MismatchFrom(c, 1).None?
      ensures Round(c) == (((c.o, |oLines| + 1), (c.a, |aLines| + 1), (c.b, |bLines| + 1)), None)
    {
    }

    /** A first mismatch at offset `i > 1` cuts the `i - 1` matching lines. */
    lemma RoundStable(c: Cursors, i: int)
      requires Fit(c) && i > 1 && MismatchFrom(c, 1) == Some(i)
      ensures Round(c) == (((c.o, c.o + i - 1), (c.a, c.a + i - 1), (c.b, c.b + i - 1)),
                           Some(Cursors(c.o + i - 1, c.a + i - 1, c.b + i - 1)))
    {
    }

    /** The end of that run of matching lines is a boundary both match
        maps support. */
    lemma StableAnchored(c: Cursors, i: int)
      requires Fit(c) && i > 1 && MismatchFrom(c, 1) == Some(i)
      ensures Anchored(aMatches, c.o + i, c.a + i) && Anchored(bMatches, c.o + i, c.b + i)
    {
      MismatchFromAligned(c, 1);
      assert Aligned(c, i - 1);
    }

    /** The round at cursors with a mismatch right after them cuts up to
        the next line both sides match, or writes the final chunk. */
    lemma RoundUnstable(c: Cursors)
      requires Fit(c) && Inbounds(c, 1) && !Aligned(c, 1)
      ensures var ov := NextCommon(c.o + 1);
              if ov in aMatches && ov in bMatches && aMatches[ov] != 0 && bMatches[ov] != 0 then
                Round(c) == (((c.o, ov - 1), (c.a, aMatches[ov] - 1), (c.b, bMatches[ov] - 1)),
                             Some(Cursors(ov - 1, aMatches[ov] - 1, bMatches[ov] - 1)))
              else Round(c) == (((c.o, |oLines| + 1), (c.a, |aLines| + 1), (c.b, |bLines| + 1)), None)
    {
      assert MismatchFrom(c, 1) == Some(1);
    }

    /** `RoundUnstable` in terms of what `_find_next_match` returns. */
    lemma UnstableRound(c: Cursors, o: int, a: Option<int>, b: Option<int>) returns (cut: ConflictRanges, next: Option<Cursors>)
      requires Fit(c) && Inbounds(c, 1) && !Aligned(c, 1)
      requires o == NextCommon(c.o + 1) && (o <= |oLines| <==> a.Some? && b.Some?)
      requires a.Some? ==> o in aMatches && a.value == aMatches[o]
      requires b.Some? ==> o in bMatches && b.value == bMatches[o]
      ensures Round(c) == (cut, next)
      ensures next.Some? <==> a.Some? && a.value != 0 && b.Some? && b.value != 0
      ensures next.Some? ==> && o > c.o && a.value > c.a && b.value > c.b
                             && (o == c.o + 1 ==> a.value != c.a + 1 || b.value != c.b + 1)
                             && cut == ((c.o, o - 1), (c.a, a.value - 1), (c.b, b.value - 1))
                             && next.value == Cursors(o - 1, a.value - 1, b.value - 1)
      ensures next.None? ==> cut == ((c.o, |oLines| + 1), (c.a, |aLines| + 1), (c.b, |bLines| + 1))
      ensures next.Some? <==> o in aMatches && o in bMatches && aMatches[o] != 0 && bMatches[o] != 0
    {
      RoundUnstable(c);
      cut, next := Round(c).0, Round(c).1;
    }

    /** The ranges of the chunks `_generate_chunks` writes from cursors `c`
        on, in order, ending with the final chunk. */
    function Rounds(c: Cursors): (r: seq<ConflictRanges>)
      requires Fit(c)
      decreases |oLines| + |aLines| + |bLines| - (c.o + c.a + c.b)
    {
      var r := Round(c);
      if r.1.None? then [r.0] else [r.0] + Rounds(r.1.value)
    }

    /** When alice's lines are the ancestor's and her match map is the
        identity, every round cuts alice's file where it cuts the ancestor. */
    lemma {:induction false} RoundsAliceAligned(c: Cursors)
      requires Fit(c) && c.a == c.o && aLines == oLines && Identity(aMatches)
      ensures forall k :: 0 <= k < |Rounds(c)| ==> Rounds(c)[k].1 == Rounds(c)[k].0
      decreases |oLines| + |aLines| + |bLines| - (c.o + c.a + c.b)
    {
      var r := Round(c);
      if r.1.Some? {
        RoundsAliceAligned(r.1.value);
      }
    }

    /** When bob's lines are the ancestor's and his match map is the
        identity, every round cuts bob's file where it cuts the ancestor. */
    lemma {:induction false} RoundsBobAligned(c: Cursors)
      requires Fit(c) && c.b == c.o && bLines == oLines && Identity(bMatches)
      ensures forall k :: 0 <= k < |Rounds(c)| ==> Rounds(c)[k].2 == Rounds(c)[k].0
      decreases |oLines| + |aLines| + |bLines| - (c.o + c.a + c.b)
    {
      var r := Round(c);
      if r.1.Some? {
        RoundsBobAligned(r.1.value);
      }
    }

    /** Round `k` from cursors `c` is the round at the cursors where it
        starts, the first starts at `c`, each later one starts where the one
        before it ends, and only the last is the final chunk. */
    lemma {:induction false} RoundsAt(c: Cursors, k: int)
      requires Fit(c) && 0 <= k < |Rounds(c)|
      ensures From(Rounds(c)[0]) == c
      ensures var r := Rounds(c)[k]; Fit(From(r)) && Round(From(r)).0 == r
      ensures k + 1 < |Rounds(c)| <==> Round(From(Rounds(c)[k])).1.Some?
      ensures k + 1 < |Rounds(c)| ==> From(Rounds(c)[k + 1]) == To(Rounds(c)[k])
      decreases |oLines| + |aLines| + |bLines| - (c.o + c.a + c.b), k
    {
      RoundsHead(c);
      var r := Round(c);
      if r.1.Some? {
        var d := r.1.value;
        if k == 0 {
          RoundsAt(d, 0);
        } else {
          assert Rounds(c)[k] == Rounds(d)[k - 1];
          RoundsAt(d, k - 1);
        }
      }
    }

    /** Round `k` of `plan` is the round at the cursors where it starts,
        it is the final chunk exactly when it is the last, and the next one
        starts where it ends. */
    ghost predicate Follows(plan: seq<ConflictRanges>, k: int)
      requires 0 <= k < |plan|
    {
      && Fit(From(plan[k])) && Round(From(plan[k])).0 == plan[k]
      && (k + 1 < |plan| <==> Round(From(plan[k])).1.Some?)
      && (k + 1 < |plan| ==> From(plan[k + 1]) == To(plan[k]))
    }

    /** Every round of `plan` follows from where it starts. */
    ghost predicate Paced(plan: seq<ConflictRanges>)
    {
      forall k {:trigger Follows(plan, k)} :: 0 <= k < |plan| ==> Follows(plan, k)
    }

    /** The rounds from `c` are paced, and the first starts at `c`. */
    lemma RoundsPaced(c: Cursors)
      requires Fit(c)
      ensures Paced(Rounds(c)) && From(Rounds(c)[0]) == c
    {
      forall k | 0 <= k < |Rounds(c)|
        ensures Follows(Rounds(c), k)
      {
        RoundsAt(c, k);
      }
      RoundsAt(c, 0);
    }

    /** The rounds from `c` are the round at `c`, then, unless that was
        the final chunk, the rounds from where it ends. */
    lemma RoundsHead(c: Cursors)
      requires Fit(c)
      ensures |Rounds(c)| >= 1 && Rounds(c)[0] == Round(c).0
      ensures Round(c).1.None? ==> |Rounds(c)| == 1
      ensures Round(c).1.Some? ==> Rounds(c)[1..] == Rounds(Round(c).1.value)
    {
    }

    /** Where round `k` of the plan finds no mismatch, it is the last and
        writes the final chunk. */
    lemma FinalPlanned(k: int, c: Cursors)
      requires Paced(plan) && 0 <= k < |plan| && From(plan[k]) == c && Fit(c)
      requires MismatchFrom(c, 1).None?
      ensures k + 1 == |plan| && plan[k] == ((c.o, |oLines| + 1), (c.a, |aLines| + 1), (c.b, |bLines| + 1))
    {
      assert Follows(plan, k);
      RoundFinal(c);
    }

    /** Where round `k` of the plan first mismatches at offset `i > 1`, it
        cuts the `i - 1` matching lines and the next round starts after
        them. */
    lemma StablePlanned(k: int, c: Cursors, i: int)
      requires Paced(plan) && 0 <= k < |plan| && From(plan[k]) == c && Fit(c)
      requires i > 1 && MismatchFrom(c, 1) == Some(i)
      ensures k + 1 < |plan| && plan[k] == ((c.o, c.o + i - 1), (c.a, c.a + i - 1), (c.b, c.b + i - 1))
      ensures From(plan[k + 1]) == Cursors(c.o + i - 1, c.a + i - 1, c.b + i - 1)
      ensures Anchored(aMatches, c.o + i, c.a + i) && Anchored(bMatches, c.o + i, c.b + i)
    {
      assert Follows(plan, k);
      RoundStable(c, i);
      StableAnchored(c, i);
    }

    /** Where round `k` of the plan mismatches right after its cursors, it
        runs up to the next line both sides match, `o`, and the next round
        starts there; with no such line it is the final chunk. */
    lemma UnstablePlanned(k: int, c: Cursors, o: int, a: Option<int>, b: Option<int>)
      requires Paced(plan) && 0 <= k < |plan| && From(plan[k]) == c && Fit(c)
      requires Inbounds(c, 1) && !Aligned(c, 1)
      requires o == NextCommon(c.o + 1) && (o <= |oLines| <==> a.Some? && b.Some?)
      requires a.Some? ==> o in aMatches && a.value == aMatches[o]
      requires b.Some? ==> o in bMatches && b.value == bMatches[o]
      ensures a.Some? && a.value != 0 && b.Some? && b.value != 0 ==>
                && o > c.o && a.value > c.a && b.value > c.b
                && k + 1 < |plan| && plan[k] == ((c.o, o - 1), (c.a, a.value - 1), (c.b, b.value - 1))
                && From(plan[k + 1]) == Cursors(o - 1, a.value - 1, b.value - 1)
      ensures !(a.Some? && a.value != 0 && b.Some? && b.value != 0) ==>
                k + 1 == |plan| && plan[k] == ((c.o, |oLines| + 1), (c.a, |aLines| + 1), (c.b, |bLines| + 1))
    {
      assert Follows(plan, k);
      var cut, next := UnstableRound(c, o, a, b);
    }

    /** `_write_chunk`: resolves the three slices and appends the result,
        recording the ranges when it is a conflict block. */
    method WriteChunk(oRange: LineRange, aRange: LineRange, bRange: LineRange)
      requires 0 <= oRange.0 && 0 <= oRange.1 && 0 <= aRange.0 && 0 <= aRange.1 && 0 <= bRange.0 && 0 <= bRange.1
      modifies this
      ensures Appended(old(chunks), old(conflicts), old(pieces), PieceAt(oRange, aRange, bRange), chunks, conflicts, pieces)
      ensures on == old(on) && an == old(an) && bn == old(bn) && finished == old(finished) && plan == old(plan)
    {
      var oc := Concat(Slice(oLines, oRange.0, oRange.1));
      var ac := Concat(Slice(aLines, aRange.0, aRange.1));
      var bc := Concat(Slice(bLines, bRange.0, bRange.1));
      var res := ResolveChunk(strategy, oc, ac, bc);
      if res.conflicted {
        conflicts := conflicts + [(oRange, aRange, bRange)];
      }
      chunks := chunks + [res.text];
      pieces := pieces + [PieceAt(oRange, aRange, bRange)];
    }

    /** `_emit_chunk(o, a, b)`: writes the chunk from the cursors up to
        lines `o-1`/`a-1`/`b-1` and moves the cursors there. It is reached
        only at a boundary both match maps support, ahead of the cursors. */
    method EmitChunk(o: int, a: int, b: int)
      requires Valid() && !finished
      requires on < o && an < a && bn < b
      requires Anchored(aMatches, o, a) && Anchored(bMatches, o, b)
      requires |pieces| + 1 < |plan| && plan[|pieces|] == ((on, o - 1), (an, a - 1), (bn, b - 1))
      requires From(plan[|pieces| + 1]) == Cursors(o - 1, a - 1, b - 1)
      modifies this
      ensures Valid() && !finished && plan == old(plan)
      ensures on == o - 1 && an == a - 1 && bn == b - 1
      ensures |pieces| == old(|pieces|) + 1
    {
      ghost var chunks0, conflicts0, pieces0 := chunks, conflicts, pieces;
      ghost var on0, an0, bn0 := on, an, bn;
      WriteChunk((on, o - 1), (an, a - 1), (bn, b - 1));
      on, an, bn := o - 1, a - 1, b - 1;
      EmitKeepsInv(chunks0, conflicts0, on0, an0, bn0, pieces0, plan, o, a, b, chunks, conflicts, pieces);
    }

    /** `_emit_final_chunk`: writes everything from the cursors to the ends
        of the files (the slices run one past the end, which Python clamps). */
    method EmitFinalChunk()
      requires Valid() && !finished
      requires |pieces| + 1 == |plan| && plan[|pieces|] == ((on, |oLines| + 1), (an, |aLines| + 1), (bn, |bLines| + 1))
      modifies this
      ensures Valid() && finished && plan == old(plan)
      ensures on == old(on) && an == old(an) && bn == old(bn)
      ensures pieces == old(pieces) + [PieceAt((on, |oLines| + 1), (an, |aLines| + 1), (bn, |bLines| + 1))]
    {
      ghost var chunks0, conflicts0, pieces0 := chunks, conflicts, pieces;
      WriteChunk((on, |oLines| + 1), (an, |aLines| + 1), (bn, |bLines| + 1));
      FinalKeepsInv(chunks0, conflicts0, on, an, bn, pieces0, plan, chunks, conflicts, pieces);
      finished := true;
      assert Inv(chunks, conflicts, on, an, bn, pieces, finished, plan);
    }

    /** `_generate_chunks`: alternates between runs of lines all three
        files share and the stretch up to the next line they share again,
        until the files run out; the chunks written are the rest of the
        plan, after which every round of it has been written. */
    method GenerateChunks()
      requires Valid() && !finished
      modifies this
      ensures Valid() && finished && plan == old(plan)
    {
      while true
        invariant Valid() && !finished && plan == old(plan)
        decreases |plan| - |pieces|
      {
        var done := Advance();
        if done {
          return;
        }
      }
    }

    /** One round of `_generate_chunks`: the next chunk of the plan, which
        is the final one exactly when the round is `done`. */
    method Advance() returns (done: bool)
      requires Valid() && !finished
      modifies this
      ensures Valid() && done == finished && plan == old(plan)
      ensures |pieces| == old(|pieces|) + 1
    {
      ghost var k, c := |pieces|, Cursors(on, an, bn);
      var i := FindNextMismatch();
      if i.None? {
        FinalPlanned(k, c);
        EmitFinalChunk();
        done := true;
      } else if i.value == 1 {
        done := EmitUnstable();
      } else {
        EmitStable(i.value);
        done := false;
      }
    }

    /** The `i > 1` branch of `_generate_chunks`: the first mismatch is at
        offset `i`, so the lines before it all match, the chunk ends just
        before them and the cursors move `i - 1` lines on. */
    method EmitStable(i: int)
      requires Valid() && !finished
      requires i > 1 && MismatchFrom(Cursors(on, an, bn), 1) == Some(i)
      modifies this
      ensures Valid() && !finished && plan == old(plan)
      ensures |pieces| == old(|pieces|) + 1
      ensures on == old(on) + i - 1 && an == old(an) + i - 1 && bn == old(bn) + i - 1
    {
      StablePlanned(|pieces|, Cursors(on, an, bn), i);
      EmitChunk(on + i, an + i, bn + i);
    }

    /** The `i == 1` branch of `_generate_chunks`: the lines right after
        the cursors do not all match, so the chunk runs up to the next
        ancestor line both sides match, and the merge finishes when there is
        none. */
    method EmitUnstable() returns (done: bool)
      requires Valid() && !finished
      requires Inbounds(Cursors(on, an, bn), 1) && !Aligned(Cursors(on, an, bn), 1)
      modifies this
      ensures Valid() && done == finished && plan == old(plan)
      ensures |pieces| == old(|pieces|) + 1
      ensures var ov := NextCommon(old(on) + 1);
              && (done <==> !(ov in aMatches && ov in bMatches && aMatches[ov] != 0 && bMatches[ov] != 0))
              && (!done ==> on == ov - 1 && an == aMatches[ov] - 1 && bn == bMatches[ov] - 1)
    {
      ghost var k, c := |pieces|, Cursors(on, an, bn);
      var o, a, b := FindNextMatch();
      UnstablePlanned(k, c, o, a, b);
      if a.Some? && a.value != 0 && b.Some? && b.value != 0 {
        EmitChunk(o, a.value, b.value);
        return false;
      }
      EmitFinalChunk();
      return true;
    }

    /** What holds of the pieces once the final chunk is written: their
        ranges are the rounds from the top of the files, and they cover each
        file in order. */
    lemma Merged(chunks: seq<Bytes>, conflicts: seq<ConflictRanges>, on: int, an: int, bn: int, ps: seq<Piece>)
      requires Inv(chunks, conflicts, on, an, bn, ps, true, plan) && Planned()
      ensures Fit(Cursors(0, 0, 0)) && RangesOf(ps) == Rounds(Cursors(0, 0, 0))
      ensures Olds(ps) == Concat(oLines) && Alices(ps) == Concat(aLines) && Bobs(ps) == Concat(bLines)
    {
      assert plan[..|ps|] == plan;
      ChainedCovers(ps);
    }

    /** `merge()`: the chunks joined in the order they were written. The
        chunks are cut by the rule of `_generate_chunks` from the top of
        the files, every line of each file falls in exactly one chunk, in
        order, and each chunk contributes its resolution. */
    method Merge() returns (res: Bytes)
      requires Valid() && !finished && Planned()
      modifies this
      ensures Valid() && finished && plan == old(plan)
      ensures Fit(Cursors(0, 0, 0)) && RangesOf(pieces) == Rounds(Cursors(0, 0, 0))
      ensures res == Concat(chunks) && chunks == Texts(strategy, pieces)
      ensures Olds(pieces) == Concat(oLines) && Alices(pieces) == Concat(aLines) && Bobs(pieces) == Concat(bLines)
      ensures conflicts == ConflictsOf(strategy, pieces)
      ensures KeepsOurs(strategy) || KeepsTheirs(strategy) ==> conflicts == []
      ensures (forall k :: 0 <= k < |pieces| ==> pieces[k].o == pieces[k].a) ==> res == Concat(bLines) && conflicts == []
      ensures (forall k :: 0 <= k < |pieces| ==> pieces[k].o == pieces[k].b) ==> res == Concat(aLines) && conflicts == []
      ensures forall k :: 0 <= k < |pieces| && pieces[k].o == pieces[k].b ==> chunks[k] == pieces[k].a
      ensures forall k :: 0 <= k < |pieces| && pieces[k].o == pieces[k].a ==> chunks[k] == pieces[k].b
      ensures aLines == oLines && Identity(aMatches) ==> res == Concat(bLines) && conflicts == []
      ensures bLines == oLines && Identity(bMatches) ==> res == Concat(aLines) && conflicts == []
    {
      GenerateChunks();
      res := Concat(chunks);
      Merged(chunks, conflicts, on, an, bn, pieces);
      Resolved(strategy, pieces);
      if aLines == oLines && Identity(aMatches) {
        RoundsAliceAligned(Cursors(0, 0, 0));
        forall k | 0 <= k < |pieces|
          ensures pieces[k].o == pieces[k].a
        {
          assert WellCut(pieces[k]);
          assert pieces[k].ranges == Rounds(Cursors(0, 0, 0))[k];
        }
      }
      if bLines == oLines && Identity(bMatches) {
        RoundsBobAligned(Cursors(0, 0, 0));
        forall k | 0 <= k < |pieces|
          ensures pieces[k].o == pieces[k].b
        {
          assert WellCut(pieces[k]);
          assert pieces[k].ranges == Rounds(Cursors(0, 0, 0))[k];
        }
      }
    }
  }
}
