/**
 What the splice may rely on because the records come from one match: the candidates for anchors never
 overlap, so none is dropped, and the skipped comments are disjoint.
 */
module MatchToSplice {
  import opened Bytes
  import opened Outcomes
  import opened SyntaxTree
  import opened MatchRecords
  import opened Derivations
  import opened PatternNames
  import opened TraceOrder
  import opened RawMatches
  import opened SpliceAnchors
  import opened SpliceComments

  /** The anchor an event would become. */
  function AnchorOf(e: Event, src: bytes): Option<Anchor> {
    match e
    case Aligned(a) => Some(LiteralAnchor(a, src))
    case Bound(name, cap, _) => Some(NamedAnchor(name, cap))
    case Skipped(_) => None
  }

  /** The ranges of the later events, behind the first event's. */
  lemma LaterEvents(tr: seq<Event>, lo: nat, hi: nat) returns (from: nat)
    requires InOrder(SrcRanges(tr), lo, hi) && tr != []
    ensures InOrder(SrcRanges(tr[1..]), from, hi) && lo <= from
    ensures SrcRange(tr[0]) != [] ==> lo <= SrcRange(tr[0])[0].start && from == SrcRange(tr[0])[0].end
  {
    var r := SrcRange(tr[0]);
    assert SrcRanges(tr)[|r|..] == SrcRanges(tr[1..]);
    from := if r == [] then lo else r[0].end;
  }

  /** Events with extent stand apart in the source. */
  lemma {:induction false} EventsApart(tr: seq<Event>, lo: nat, hi: nat, i: nat, j: nat)
    requires InOrder(SrcRanges(tr), lo, hi) && i < j < |tr|
    requires SrcRange(tr[i]) != [] && SrcRange(tr[j]) != []
    ensures SrcRange(tr[i])[0].end <= SrcRange(tr[j])[0].start
    decreases |tr|
  {
    hide InOrder, SrcRanges, SrcRange;
    var from := LaterEvents(tr, lo, hi);
    if i > 0 {
      EventsApart(tr[1..], from, hi, i - 1, j - 1);
    } else {
      EventAfter(tr[1..], from, hi, j - 1);
    }
  }

  lemma {:induction false} EventAfter(tr: seq<Event>, lo: nat, hi: nat, j: nat)
    requires InOrder(SrcRanges(tr), lo, hi) && j < |tr| && SrcRange(tr[j]) != []
    ensures lo <= SrcRange(tr[j])[0].start
    decreases |tr|
  {
    hide InOrder, SrcRanges, SrcRange;
    var from := LaterEvents(tr, lo, hi);
    if j > 0 {
      EventAfter(tr[1..], from, hi, j - 1);
    }
  }

  lemma {:induction false} LastBindingIsEvent(tr: seq<Event>, name: bytes) returns (i: nat)
    requires LastBinding(tr, name).Some?
    ensures i < |tr| && tr[i].Bound? && tr[i].name == name && tr[i].cap == LastBinding(tr, name).value
  {
    if LastBinding(tr[1..], name).Some? {
      i := LastBindingIsEvent(tr[1..], name);
      i := i + 1;
    } else {
      i := 0;
    }
  }

  /** Every candidate comes from one event of the derivation. */
  lemma CandidateIsEvent(pt: PatternTree, n: Node, src: bytes, absorbed: seq<Range>, d: Deriv, outer: Capture,
          x: Anchor)
    returns (i: nat)
    requires Clear(pt, pt.root) && NodeHolds(pt, pt.root, n, src, d)
    requires IMPLICIT !in AllNames(pt, pt.root) && OUTER !in AllNames(pt, pt.root)
    requires Candidate(ResultOf(pt, n, src, absorbed, d), src, outer, x)
    ensures var tr := NodeTrace(pt, pt.root, n, src, d);
            i < |tr| && AnchorOf(tr[i], src) == Some(x) && SrcRange(tr[i]) == [Range(x.srcStart, x.srcEnd)]
  {
    hide NodeHolds, NodeTrace, NodeDropped, Clear, AllNames, LastBinding, Slice;
    var m, tr := ResultOf(pt, n, src, absorbed, d), NodeTrace(pt, pt.root, n, src, d);
    ResultBindings(pt, n, src, absorbed, d);
    if x.name in m.captures && x.name != [] && x.name != OUTER && x == NamedAnchor(x.name, m.captures[x.name])
       && Inside(m.captures[x.name].start, m.captures[x.name].end, outer) {
      i := LastBindingIsEvent(tr, x.name);
    } else {
      var a :| a in m.alignment && x == LiteralAnchor(a, src) && Inside(a.srcStart, a.srcEnd, outer);
      AlignsAreEvents(tr);
      i :| 0 <= i < |tr| && tr[i] == Aligned(a);
    }
  }

  /** No two candidates of one match overlap, inside whatever span the splice looks at. */
  lemma CandidatesApart(pt: PatternTree, n: Node, src: bytes, absorbed: seq<Range>, d: Deriv, outer: Capture,
          x: Anchor, y: Anchor)
    requires Clear(pt, pt.root) && NodeHolds(pt, pt.root, n, src, d)
    requires WellFormed(pt.root) && WellFormed(n) && n.end <= |src|
    requires IMPLICIT !in AllNames(pt, pt.root) && OUTER !in AllNames(pt, pt.root)
    requires Candidate(ResultOf(pt, n, src, absorbed, d), src, outer, x)
    requires Candidate(ResultOf(pt, n, src, absorbed, d), src, outer, y) && x != y
    ensures NoOverlap(x, y)
  {
    hide NodeHolds, NodeTrace, NodeDropped, Clear, AllNames, WellFormed, InOrder, Candidate, ResultOf;
    var tr := NodeTrace(pt, pt.root, n, src, d);
    NodeOrdered(pt, pt.root, n, src, d);
    var i := CandidateIsEvent(pt, n, src, absorbed, d, outer, x);
    var j := CandidateIsEvent(pt, n, src, absorbed, d, outer, y);
    if i < j {
      EventsApart(tr, n.start, n.end, i, j);
    } else {
      EventsApart(tr, n.start, n.end, j, i);
    }
  }

  /** Without a where-tree the anchor list holds every literal token with extent and every named capture
      with extent. */
  lemma MatchAnchorsAllKept(pt: PatternTree, n: Node, src: bytes, absorbed: seq<Range>, d: Deriv, outer: Capture,
          kept: seq<Anchor>)
    requires Clear(pt, pt.root) && NodeHolds(pt, pt.root, n, src, d)
    requires WellFormed(pt.root) && WellFormed(n) && n.end <= |src|
    requires IMPLICIT !in AllNames(pt, pt.root) && OUTER !in AllNames(pt, pt.root)
    requires AnchorList(ResultOf(pt, n, src, absorbed, d), src, outer, kept)
    ensures AllKept(ResultOf(pt, n, src, absorbed, d), src, outer, kept)
  {
    hide NodeHolds, Clear, AllNames, WellFormed, AnchorList, Candidate, ResultOf, AllKept;
    var m := ResultOf(pt, n, src, absorbed, d);
    forall x, y | Candidate(m, src, outer, x) && Candidate(m, src, outer, y) && x != y ensures NoOverlap(x, y) {
      CandidatesApart(pt, n, src, absorbed, d, outer, x, y);
    }
    AllKeptIffApart(m, src, outer, kept);
  }

  /** The skipped comments of one match are pairwise disjoint. */
  lemma MatchCommentsDisjoint(pt: PatternTree, n: Node, src: bytes, absorbed: seq<Range>, d: Deriv)
    requires NodeHolds(pt, pt.root, n, src, d)
    requires WellFormed(pt.root) && WellFormed(n) && n.end <= |src|
    ensures Disjoint(ResultOf(pt, n, src, absorbed, d).comments)
  {
    hide NodeHolds, NodeTrace, NodeDropped, WellFormed, InOrder, ResultOf, TextAgrees;
    ResultInOrder(pt, n, src, absorbed, d);
    var cs := ResultOf(pt, n, src, absorbed, d).comments;
    forall s, t | s in cs && t in cs && s != t ensures s.end <= t.start || t.end <= s.start {
      var i :| 0 <= i < |cs| && cs[i] == s;
      var j :| 0 <= j < |cs| && cs[j] == t;
      InOrderAt(cs, n.start, n.end, if i < j then i else j);
    }
  }
}
