/**
 What the where-tree's handles do to the splice: they are captures like any other, so every handle with
 extent inside the replaced span competes with the match's own anchors for its bytes.
 */
module HandleAnchors {
  import opened Bytes
  import opened Outcomes
  import opened SyntaxTree
  import opened MatchRecords
  import opened Derivations
  import opened PatternNames
  import opened TraceOrder
  import opened RawMatches
  import WhereTree
  import opened WhereEval
  import opened SpliceAnchors
  import opened AnchorRivals
  import opened MatchToSplice
  import opened MatchAnchors

  /** The anchor of a capture some handle wrote. */
  predicate FromHandle(log: seq<Binding>, x: Anchor) {
    x.name != [] && x.name in KeysWritten(log)
  }

  /** Every other candidate is one of the unfiltered match. */
  lemma OwnCandidate(pt: PatternTree, n: Node, src: bytes, absorbed: seq<Range>, d: Deriv, log: seq<Binding>,
          w: WhereTree.WhereNode, pattern: bytes, outer: Capture, x: Anchor)
    requires Clear(pt, pt.root) && NodeHolds(pt, pt.root, n, src, d) && CompiledFrom(pt, pattern)
    requires Declared(log, WhereTree.Exports(w)) && !FromHandle(log, x)
    requires Candidate(FilteredOf(pt, n, src, absorbed, d, log), src, outer, x)
    ensures Candidate(ResultOf(pt, n, src, absorbed, d), src, outer, x)
  {
    hide NodeHolds, Clear, CompiledFrom, Declared, ResultOf, FilteredOf, KeysWritten, NoHandleHere, WhereTree.Exports, Slice;
    FilteredBindings(pt, n, src, absorbed, d, log, w, pattern);
    var m, f := ResultOf(pt, n, src, absorbed, d), FilteredOf(pt, n, src, absorbed, d, log);
    if x.name != [] {
      assert SameAt(m.captures, f.captures, x.name);
    }
  }

  /** No two candidates overlap where one of them comes from a handle. */
  ghost predicate HandlesApart(f: RawMatch, src: bytes, outer: Capture, log: seq<Binding>) {
    forall x, y | Candidate(f, src, outer, x) && FromHandle(log, x) && Candidate(f, src, outer, y) && x != y :: NoOverlap(x, y)
  }

  /** A match filtered by a where-tree loses no anchor exactly when nothing a handle wrote overlaps another
      candidate. */
  lemma FilteredAnchorsAllKeptIff(pt: PatternTree, n: Node, src: bytes, absorbed: seq<Range>, d: Deriv,
          log: seq<Binding>, w: WhereTree.WhereNode, pattern: bytes, outer: Capture, kept: seq<Anchor>)
    requires Clear(pt, pt.root) && NodeHolds(pt, pt.root, n, src, d) && CompiledFrom(pt, pattern)
    requires WellFormed(pt.root) && WellFormed(n) && n.end <= |src|
    requires IMPLICIT !in AllNames(pt, pt.root) && OUTER !in AllNames(pt, pt.root)
    requires Declared(log, WhereTree.Exports(w))
    requires AnchorList(FilteredOf(pt, n, src, absorbed, d, log), src, outer, kept)
    ensures var f := FilteredOf(pt, n, src, absorbed, d, log);
            && (AllKept(f, src, outer, kept) <==> HandlesApart(f, src, outer, log))
            && (NoHandleHere(w) ==> AllKept(f, src, outer, kept))
  {
    hide NodeHolds, Clear, CompiledFrom, Declared, AllNames, WellFormed, AnchorList, Candidate, ResultOf, FilteredOf,
         AllKept, FromHandle, NoHandleHere, WhereTree.Exports;
    var f := FilteredOf(pt, n, src, absorbed, d, log);
    AllKeptIffApart(f, src, outer, kept);
    if HandlesApart(f, src, outer, log) {
      forall x, y | Candidate(f, src, outer, x) && Candidate(f, src, outer, y) && x != y ensures NoOverlap(x, y) {
        if !FromHandle(log, x) && !FromHandle(log, y) {
          OwnCandidate(pt, n, src, absorbed, d, log, w, pattern, outer, x);
          OwnCandidate(pt, n, src, absorbed, d, log, w, pattern, outer, y);
          CandidatesApart(pt, n, src, absorbed, d, outer, x, y);
        } else if FromHandle(log, y) {
          assert NoOverlap(y, x);
        }
      }
    }
    if NoHandleHere(w) {
      FilteredBindings(pt, n, src, absorbed, d, log, w, pattern);
      MatchAnchorsAllKept(pt, n, src, absorbed, d, outer, kept);
    }
  }

  // ----- when the match's own anchors survive -----

  ghost function CandidatesOf(m: RawMatch, src: bytes, outer: Capture): iset<Anchor> {
    iset x | Candidate(m, src, outer, x)
  }

  /** What only the handles make a candidate. */
  ghost function RivalsOf(m: RawMatch, f: RawMatch, src: bytes, outer: Capture): iset<Anchor> {
    iset x | Candidate(f, src, outer, x) && !Candidate(m, src, outer, x)
  }

  /** No handle has taken an own candidate's name for another node. */
  ghost predicate OwnIntact(m: RawMatch, f: RawMatch, src: bytes, outer: Capture) {
    forall x | Candidate(m, src, outer, x) :: Candidate(f, src, outer, x)
  }

  /** Every anchor list of the filtered match holds every own candidate. */
  ghost predicate OwnAlwaysKept(m: RawMatch, f: RawMatch, src: bytes, outer: Capture) {
    forall kept | AnchorList(f, src, outer, kept) :: OwnSurvive(CandidatesOf(m, src, outer), kept)
  }

  /** No rival takes an own anchor's place. */
  ghost predicate NoneHarms(m: RawMatch, f: RawMatch, src: bytes, outer: Capture) {
    var own, rivals := CandidatesOf(m, src, outer), RivalsOf(m, f, src, outer);
    forall h | h in rivals :: !Harms(own, rivals, h)
  }

  lemma ListsAre(m: RawMatch, f: RawMatch, src: bytes, outer: Capture, kept: seq<Anchor>)
    requires OwnIntact(m, f, src, outer)
    ensures AnchorList(f, src, outer, kept)
       <==> Lists(CandidatesOf(m, src, outer) + RivalsOf(m, f, src, outer), outer.start, outer.end, kept)
  {
    hide Candidate, Tiling, Shadowed;
    var c := CandidatesOf(m, src, outer) + RivalsOf(m, f, src, outer);
    assert forall x :: x in c <==> Candidate(f, src, outer, x);
  }

  lemma InContest(pt: PatternTree, n: Node, src: bytes, absorbed: seq<Range>, d: Deriv, f: RawMatch, outer: Capture)
    requires Clear(pt, pt.root) && NodeHolds(pt, pt.root, n, src, d)
    requires WellFormed(pt.root) && WellFormed(n) && n.end <= |src|
    requires IMPLICIT !in AllNames(pt, pt.root) && OUTER !in AllNames(pt, pt.root)
    ensures var m := ResultOf(pt, n, src, absorbed, d);
            Contest(CandidatesOf(m, src, outer), RivalsOf(m, f, src, outer))
  {
    hide NodeHolds, Clear, AllNames, WellFormed, Candidate, ResultOf;
    var m := ResultOf(pt, n, src, absorbed, d);
    HaveExtent(m, src, outer);
    HaveExtent(f, src, outer);
    forall x, y | Candidate(m, src, outer, x) && Candidate(m, src, outer, y) && x != y ensures NoOverlap(x, y) {
      CandidatesApart(pt, n, src, absorbed, d, outer, x, y);
    }
  }

  lemma HaveExtent(m: RawMatch, src: bytes, outer: Capture)
    ensures forall x | Candidate(m, src, outer, x) :: x.srcStart < x.srcEnd
  {
  }

  lemma KeptInOne(m: RawMatch, f: RawMatch, src: bytes, outer: Capture, built: seq<Anchor>)
    requires OwnAlwaysKept(m, f, src, outer) && AnchorList(f, src, outer, built)
    ensures OwnSurvive(CandidatesOf(m, src, outer), built)
  {
    hide AnchorList, OwnSurvive;
  }

  lemma LostIfNotIntact(m: RawMatch, f: RawMatch, src: bytes, outer: Capture, built: seq<Anchor>)
    requires AnchorList(f, src, outer, built) && OwnSurvive(CandidatesOf(m, src, outer), built)
    ensures OwnIntact(m, f, src, outer)
  {
    hide Candidate;
    forall x | Candidate(m, src, outer, x) ensures Candidate(f, src, outer, x) {
      assert x in CandidatesOf(m, src, outer);
    }
  }

  /** A match's own anchors survive its where-tree when no handle has taken an own name for another node and no
      handle's anchor takes an own one's place; where the handles' spans nest, only then. */
  lemma OwnAnchorsSurviveIff(pt: PatternTree, n: Node, src: bytes, absorbed: seq<Range>, d: Deriv,
          log: seq<Binding>, outer: Capture, built: seq<Anchor>)
    requires Clear(pt, pt.root) && NodeHolds(pt, pt.root, n, src, d)
    requires WellFormed(pt.root) && WellFormed(n) && n.end <= |src|
    requires IMPLICIT !in AllNames(pt, pt.root) && OUTER !in AllNames(pt, pt.root)
    requires AnchorList(FilteredOf(pt, n, src, absorbed, d, log), src, outer, built)
    ensures var m, f := ResultOf(pt, n, src, absorbed, d), FilteredOf(pt, n, src, absorbed, d, log);
            && (OwnIntact(m, f, src, outer) && NoneHarms(m, f, src, outer) ==> OwnAlwaysKept(m, f, src, outer))
            && (OwnAlwaysKept(m, f, src, outer) ==> OwnIntact(m, f, src, outer))
            && (Nested(RivalsOf(m, f, src, outer)) && OwnAlwaysKept(m, f, src, outer) ==> NoneHarms(m, f, src, outer))
  {
    var m, f := ResultOf(pt, n, src, absorbed, d), FilteredOf(pt, n, src, absorbed, d, log);
    InContest(pt, n, src, absorbed, d, f, outer);
    hide *;
    if OwnAlwaysKept(m, f, src, outer) {
      KeptInOne(m, f, src, outer, built);
      LostIfNotIntact(m, f, src, outer, built);
    }
    if OwnIntact(m, f, src, outer) {
      SurviveIff(m, f, src, outer, built);
    }
  }

  lemma SurviveIff(m: RawMatch, f: RawMatch, src: bytes, outer: Capture, built: seq<Anchor>)
    requires Contest(CandidatesOf(m, src, outer), RivalsOf(m, f, src, outer)) && OwnIntact(m, f, src, outer)
    requires AnchorList(f, src, outer, built)
    ensures NoneHarms(m, f, src, outer) ==> OwnAlwaysKept(m, f, src, outer)
    ensures Nested(RivalsOf(m, f, src, outer)) && OwnAlwaysKept(m, f, src, outer) ==> NoneHarms(m, f, src, outer)
  {
    hide AnchorList, Lists, Contest, Harms, OwnSurvive, OwnIntact, Nested, CandidatesOf, RivalsOf;
    var own, rivals, lo, hi := CandidatesOf(m, src, outer), RivalsOf(m, f, src, outer), outer.start, outer.end;
    forall kept ensures AnchorList(f, src, outer, kept) <==> Lists(own + rivals, lo, hi, kept) {
      ListsAre(m, f, src, outer, kept);
    }
    if NoneHarms(m, f, src, outer) {
      forall kept | Lists(own + rivals, lo, hi, kept) ensures OwnSurvive(own, kept) {
        AllUnharmedSurvive(own, rivals, lo, hi, kept);
      }
    }
    if Nested(rivals) {
      OwnSurviveIff(own, rivals, lo, hi, built);
    }
  }

  /** The handles change no anchor list exactly when, besides, an own anchor that sorts earlier covers the first
      byte of everything they add. */
  lemma HandlesChangeNothingIff(pt: PatternTree, n: Node, src: bytes, absorbed: seq<Range>, d: Deriv,
          log: seq<Binding>, outer: Capture, list: seq<Anchor>, built: seq<Anchor>)
    requires Clear(pt, pt.root) && NodeHolds(pt, pt.root, n, src, d)
    requires WellFormed(pt.root) && WellFormed(n) && n.end <= |src|
    requires IMPLICIT !in AllNames(pt, pt.root) && OUTER !in AllNames(pt, pt.root)
    requires AnchorList(ResultOf(pt, n, src, absorbed, d), src, outer, list)
    requires AnchorList(FilteredOf(pt, n, src, absorbed, d, log), src, outer, built)
    ensures var m, f := ResultOf(pt, n, src, absorbed, d), FilteredOf(pt, n, src, absorbed, d, log);
            (forall kept | AnchorList(f, src, outer, kept) :: kept == list)
            <==> OwnIntact(m, f, src, outer) && AllCovered(CandidatesOf(m, src, outer), RivalsOf(m, f, src, outer))
  {
    var m, f := ResultOf(pt, n, src, absorbed, d), FilteredOf(pt, n, src, absorbed, d, log);
    InContest(pt, n, src, absorbed, d, f, outer);
    MatchAnchorsAllKept(pt, n, src, absorbed, d, outer, list);
    hide *;
    OwnList(m, src, outer, list);
    if forall kept | AnchorList(f, src, outer, kept) :: kept == list {
      OwnListSurvives(m, src, outer, list);
      LostIfNotIntact(m, f, src, outer, built);
    }
    if OwnIntact(m, f, src, outer) {
      var own, rivals := CandidatesOf(m, src, outer), RivalsOf(m, f, src, outer);
      forall kept ensures AnchorList(f, src, outer, kept) <==> Lists(own + rivals, outer.start, outer.end, kept) {
        ListsAre(m, f, src, outer, kept);
      }
      RivalsChangeNothingIff(own, rivals, outer.start, outer.end, list, built);
    }
  }

  lemma OwnList(m: RawMatch, src: bytes, outer: Capture, list: seq<Anchor>)
    requires AnchorList(m, src, outer, list) && AllKept(m, src, outer, list)
    ensures Tiling(list, outer.start, outer.end) && forall x :: x in list <==> x in CandidatesOf(m, src, outer)
  {
    hide Candidate, Tiling;
  }

  lemma OwnListSurvives(m: RawMatch, src: bytes, outer: Capture, list: seq<Anchor>)
    requires forall x :: x in list <==> x in CandidatesOf(m, src, outer)
    ensures OwnSurvive(CandidatesOf(m, src, outer), list)
  {
  }

  /** Own names the leaves wrote nothing under stay intact. */
  lemma UnwrittenIntact(pt: PatternTree, n: Node, src: bytes, absorbed: seq<Range>, d: Deriv, log: seq<Binding>,
          w: WhereTree.WhereNode, pattern: bytes, outer: Capture)
    requires Clear(pt, pt.root) && NodeHolds(pt, pt.root, n, src, d) && CompiledFrom(pt, pattern)
    requires Declared(log, WhereTree.Exports(w)) && IMPLICIT !in AllNames(pt, pt.root)
    requires forall x | x in AllNames(pt, pt.root) :: x !in KeysWritten(log)
    ensures OwnIntact(ResultOf(pt, n, src, absorbed, d), FilteredOf(pt, n, src, absorbed, d, log), src, outer)
  {
    hide NodeHolds, NodeTrace, Clear, CompiledFrom, Declared, ResultOf, FilteredOf, KeysWritten, NoHandleHere,
         WhereTree.Exports, Slice, LastBinding, AllNames;
    FilteredBindings(pt, n, src, absorbed, d, log, w, pattern);
    ResultBindings(pt, n, src, absorbed, d);
    var m, f := ResultOf(pt, n, src, absorbed, d), FilteredOf(pt, n, src, absorbed, d, log);
    forall x | Candidate(m, src, outer, x) ensures Candidate(f, src, outer, x) {
      if x.name in m.captures && x.name != OUTER {
        assert SameAt(m.captures, f.captures, x.name);
      }
    }
  }

  /** The span that is replaced is the matched node's, unless a handle is called "match": then it is the span
      of the node that handle was last bound to. */
  lemma ReplacedSpan(pt: PatternTree, n: Node, src: bytes, absorbed: seq<Range>, d: Deriv, log: seq<Binding>,
          w: WhereTree.WhereNode)
    requires Clear(pt, pt.root) && NodeHolds(pt, pt.root, n, src, d)
    requires OUTER !in AllNames(pt, pt.root) && Declared(log, WhereTree.Exports(w))
    ensures var f, last := FilteredOf(pt, n, src, absorbed, d, log), LastBound(log, OUTER);
            && OUTER in f.captures
            && f.captures[OUTER] == (if last.Some? then last.value else NodeToCapture(n, src))
            && (OUTER !in WhereTree.Exports(w) ==> last.None?)
  {
    hide NodeHolds, NodeTrace, NodeDropped, Clear, Rebind, NamesOf, AllNames, NodeToCapture, LastBinding, Replay,
         CommentsWithin, AlignsOf, CommentsOf, Declared, WhereTree.Exports, LastBound;
    var tr := NodeTrace(pt, pt.root, n, src, d);
    NodeNames(pt, pt.root, n, src, d);
    RebindIsLastBinding(map[], tr, OUTER);
    NamesDiffer();
    HandleStandsFor(Own(pt, n, src, d), log, OUTER);
    if OUTER !in WhereTree.Exports(w) {
      UndeclaredIsUnbound(log, OUTER, WhereTree.Exports(w));
    }
  }

  lemma NamesDiffer()
    ensures OUTER != IMPLICIT && WhereTree.DOT !in OUTER
  {
    assert |OUTER| != |IMPLICIT|;
  }

  lemma {:induction false} UndeclaredIsUnbound(log: seq<Binding>, handle: bytes, exports: set<bytes>)
    requires Declared(log, exports) && handle !in exports
    ensures LastBound(log, handle).None?
    decreases |log|
  {
    hide Writes;
    if log != [] {
      var b := log[|log| - 1];
      assert b in log;
      BindingWritesHandle(b);
      UndeclaredIsUnbound(log[..|log| - 1], handle, exports);
    }
  }

  // ----- one handle -----

  /** What one successful sub-pattern leaf without a where-tree of its own binds: the node it found and the captures
      of that match. */
  function LeafBinding(pt: PatternTree, n: Node, src: bytes, d: Deriv, handle: bytes): Binding
    requires NodeHolds(pt, pt.root, n, src, d)
  {
    Binding(handle, NodeToCapture(n, src), Own(pt, n, src, d))
  }

  /** The spans lie inside one another or apart; an empty one counts as apart from everything. */
  predicate Nest(a: Capture, b: Capture) {
    || a.end <= a.start || b.end <= b.start || b.end <= a.start || a.end <= b.start
    || (a.start <= b.start && b.end <= a.end) || (b.start <= a.start && a.end <= b.end)
  }

  /** A capture of a match is the matched node or an event of its derivation. */
  lemma OwnIsEvent(pt: PatternTree, n: Node, src: bytes, d: Deriv, k: bytes) returns (i: nat)
    requires NodeHolds(pt, pt.root, n, src, d) && k in Own(pt, n, src, d)
    ensures var tr, c := NodeTrace(pt, pt.root, n, src, d), Own(pt, n, src, d)[k];
            c == NodeToCapture(n, src) || (i < |tr| && tr[i].Bound? && tr[i].cap == c)
  {
    hide NodeHolds, NodeTrace, NodeDropped, LastBinding, NodeToCapture, Derivations.AlignsOf, CommentsOf, Rebind;
    var tr := NodeTrace(pt, pt.root, n, src, d);
    i := 0;
    if k != IMPLICIT {
      RebindIsLastBinding(map[], tr, k);
      i := LastBindingIsEvent(tr, k);
    }
  }

  lemma OwnCapturesNest(pt: PatternTree, n: Node, src: bytes, d: Deriv, a: Capture, b: Capture)
    requires NodeHolds(pt, pt.root, n, src, d) && WellFormed(pt.root) && WellFormed(n) && n.end <= |src|
    requires a in Own(pt, n, src, d).Values && b in Own(pt, n, src, d).Values
    ensures Nest(a, b) && Nest(NodeToCapture(n, src), a)
  {
    hide NodeHolds, NodeTrace, WellFormed, Own, InOrder, SrcRanges;
    var tr, own := NodeTrace(pt, pt.root, n, src, d), Own(pt, n, src, d);
    NodeOrdered(pt, pt.root, n, src, d);
    var k :| k in own && own[k] == a;
    var l :| l in own && own[l] == b;
    var i := OwnIsEvent(pt, n, src, d, k);
    var j := OwnIsEvent(pt, n, src, d, l);
    EventCapsNest(tr, n, src, a, i, b, j);
  }

  lemma EventCapsNest(tr: seq<Event>, n: Node, src: bytes, a: Capture, i: nat, b: Capture, j: nat)
    requires InOrder(SrcRanges(tr), n.start, n.end)
    requires a == NodeToCapture(n, src) || (i < |tr| && tr[i].Bound? && tr[i].cap == a)
    requires b == NodeToCapture(n, src) || (j < |tr| && tr[j].Bound? && tr[j].cap == b)
    ensures Nest(a, b) && Nest(NodeToCapture(n, src), a)
  {
    hide InOrder, SrcRanges, Slice;
    if a != NodeToCapture(n, src) && a.start < a.end {
      EventInside(tr, n.start, n.end, tr[i]);
    }
    if b != NodeToCapture(n, src) && b.start < b.end {
      EventInside(tr, n.start, n.end, tr[j]);
      if a != NodeToCapture(n, src) && a.start < a.end && i != j {
        EventsApart(tr, n.start, n.end, if i < j then i else j, if i < j then j else i);
      }
    }
  }

  /** Everything a handle adds is the node it stands for or a capture of its sub-match. */
  lemma RivalIsBound(pt: PatternTree, n: Node, src: bytes, absorbed: seq<Range>, d: Deriv, b: Binding,
          w: WhereTree.WhereNode, pattern: bytes, outer: Capture, x: Anchor) returns (c: Capture)
    requires Clear(pt, pt.root) && NodeHolds(pt, pt.root, n, src, d) && CompiledFrom(pt, pattern)
    requires Declared([b], WhereTree.Exports(w))
    requires x in RivalsOf(ResultOf(pt, n, src, absorbed, d), FilteredOf(pt, n, src, absorbed, d, [b]), src, outer)
    ensures (c == b.self || c in b.sub.Values) && x.srcStart == c.start && x.srcEnd == c.end && c.start < c.end
  {
    hide *;
    var m, f := ResultOf(pt, n, src, absorbed, d), FilteredOf(pt, n, src, absorbed, d, [b]);
    RivalMeans(m, f, src, outer, x);
    if !FromHandle([b], x) {
      OwnCandidate(pt, n, src, absorbed, d, [b], w, pattern, outer, x);
    }
    HandleCandidate([b], f, src, outer, x);
    FilteredIsCopied(pt, n, src, absorbed, d, [b]);
    CopiedUnder(n, RecordsOf(pt, n, src, d).(byName := Replay(Own(pt, n, src, d), [b])), src, absorbed, x.name);
    ReplaysOne(Own(pt, n, src, d), b);
    c := BoundUnder(Own(pt, n, src, d), b, x.name);
  }

  lemma RivalMeans(m: RawMatch, f: RawMatch, src: bytes, outer: Capture, x: Anchor)
    requires x in RivalsOf(m, f, src, outer)
    ensures Candidate(f, src, outer, x) && !Candidate(m, src, outer, x)
  {
    hide Candidate;
  }

  lemma HandleCandidate(log: seq<Binding>, f: RawMatch, src: bytes, outer: Capture, x: Anchor)
    requires Candidate(f, src, outer, x) && FromHandle(log, x)
    ensures x.name in KeysWritten(log) && x.name in f.captures && x.name != OUTER
    ensures var c := f.captures[x.name]; x.srcStart == c.start && x.srcEnd == c.end && c.start < c.end
  {
    hide KeysWritten, Slice;
  }

  lemma CopiedUnder(n: Node, rec: Records, src: bytes, absorbed: seq<Range>, name: bytes)
    requires name != OUTER && name in CopiedOut(n, rec, src, absorbed).captures
    ensures name in rec.byName && CopiedOut(n, rec, src, absorbed).captures[name] == rec.byName[name]
  {
    hide NodeToCapture, CommentsWithin;
  }

  lemma ReplaysOne(m: map<bytes, Capture>, b: Binding)
    ensures Replay(m, [b]) == WithBinding(m, b) && KeysWritten([b]) == Writes(b)
  {
    hide WithBinding, Writes;
    assert [b][..0] == [];
    assert {} + Writes(b) == Writes(b);
  }

  lemma BoundUnder(m: map<bytes, Capture>, b: Binding, k: bytes) returns (c: Capture)
    requires k in Writes(b) && k in WithBinding(m, b)
    ensures c == WithBinding(m, b)[k] && (c == b.self || c in b.sub.Values)
  {
    c := WithBinding(m, b)[k];
    if k != b.handle {
      var name :| name in b.sub.Keys && k == WhereTree.Exported(b.handle, name);
      assert k[|b.handle| + 1..] == name && b.handle + [WhereTree.DOT] <= k;
      assert b.sub[name] in b.sub.Values;
    } else {
      assert !(b.handle + [WhereTree.DOT] <= k);
    }
  }

  /** What a single handle adds nests, so for it the condition is exact. */
  lemma OneHandleNests(pt: PatternTree, n: Node, src: bytes, absorbed: seq<Range>, d: Deriv, outer: Capture,
          w: WhereTree.WhereNode, pattern: bytes, sub: PatternTree, found: Node, e: Deriv, handle: bytes)
    requires Clear(pt, pt.root) && NodeHolds(pt, pt.root, n, src, d) && CompiledFrom(pt, pattern)
    requires NodeHolds(sub, sub.root, found, src, e) && WellFormed(sub.root) && WellFormed(found) && found.end <= |src|
    requires Declared([LeafBinding(sub, found, src, e, handle)], WhereTree.Exports(w))
    ensures var log := [LeafBinding(sub, found, src, e, handle)];
            Nested(RivalsOf(ResultOf(pt, n, src, absorbed, d), FilteredOf(pt, n, src, absorbed, d, log), src, outer))
  {
    hide NodeHolds, Clear, CompiledFrom, WellFormed, ResultOf, FilteredOf, RivalsOf, Declared, WhereTree.Exports, Own, NodeToCapture;
    var b := LeafBinding(sub, found, src, e, handle);
    var rivals := RivalsOf(ResultOf(pt, n, src, absorbed, d), FilteredOf(pt, n, src, absorbed, d, [b]), src, outer);
    forall x, y | x in rivals && y in rivals
      ensures NoOverlap(x, y) || (x.srcStart <= y.srcStart && y.srcEnd <= x.srcEnd) || (y.srcStart <= x.srcStart && x.srcEnd <= y.srcEnd)
    {
      var c := RivalIsBound(pt, n, src, absorbed, d, b, w, pattern, outer, x);
      var c' := RivalIsBound(pt, n, src, absorbed, d, b, w, pattern, outer, y);
      BoundNest(sub, found, src, e, handle, c, c');
    }
  }

  lemma BoundNest(sub: PatternTree, found: Node, src: bytes, e: Deriv, handle: bytes, c: Capture, c': Capture)
    requires NodeHolds(sub, sub.root, found, src, e) && WellFormed(sub.root) && WellFormed(found) && found.end <= |src|
    requires var b := LeafBinding(sub, found, src, e, handle);
             (c == b.self || c in b.sub.Values) && (c' == b.self || c' in b.sub.Values)
    ensures Nest(c, c')
  {
    hide NodeHolds, WellFormed, Own, NodeToCapture;
    var b := LeafBinding(sub, found, src, e, handle);
    if c in b.sub.Values {
      OwnCapturesNest(sub, found, src, e, c, if c' in b.sub.Values then c' else c);
    }
    if c' in b.sub.Values {
      OwnCapturesNest(sub, found, src, e, c', c');
    }
  }
}
