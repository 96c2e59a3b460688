/**
 The anchors of a match are its derivation's events, in order, and every event holds its own bytes.
 */
module MatchAnchors {
  import opened Bytes
  import opened Outcomes
  import opened SyntaxTree
  import opened MatchRecords
  import opened Derivations
  import opened PatternNames
  import TokenText
  import opened TraceOrder
  import opened RawMatches
  import opened SpliceAnchors
  import opened MatchToSplice

  // ----- the anchors of a match are its events -----

  /** The anchors the events with extent become, in order. */
  function AnchorsOf(tr: seq<Event>, src: bytes): seq<Anchor> {
    if tr == [] then [] else AnchorAt(tr[0], src) + AnchorsOf(tr[1..], src)
  }

  function AnchorAt(e: Event, src: bytes): seq<Anchor> {
    match e
    case Aligned(a) => if a.srcStart < a.srcEnd then [LiteralAnchor(a, src)] else []
    case Bound(name, cap, _) => if cap.start < cap.end then [NamedAnchor(name, cap)] else []
    case Skipped(_) => []
  }

  lemma {:induction false} AnchorIsOfEvent(tr: seq<Event>, src: bytes, x: Anchor)
    ensures x in AnchorsOf(tr, src) <==> exists e | e in tr :: x in AnchorAt(e, src)
  {
    hide AnchorAt;
    if tr != [] {
      AnchorIsOfEvent(tr[1..], src, x);
      assert forall e | e in tr :: e == tr[0] || e in tr[1..];
    }
  }

  lemma {:induction false} TraceTiles(tr: seq<Event>, src: bytes, lo: nat, hi: nat)
    requires InOrder(SrcRanges(tr), lo, hi)
    ensures Tiling(AnchorsOf(tr, src), lo, hi)
  {
    hide InOrder, SrcRanges;
    if tr != [] {
      var from := LaterEvents(tr, lo, hi);
      TraceTiles(tr[1..], src, from, hi);
      TilingGrows(AnchorAt(tr[0], src), AnchorsOf(tr[1..], src), lo, from, hi);
    } else {
      assert lo <= hi by { OrderedBounds(SrcRanges(tr), lo, hi); }
    }
  }

  lemma OrderedBounds(rs: seq<Range>, lo: nat, hi: nat)
    requires InOrder(rs, lo, hi)
    ensures lo <= hi
  {
  }

  lemma TilingGrows(first: seq<Anchor>, rest: seq<Anchor>, lo: nat, from: nat, hi: nat)
    requires |first| <= 1 && lo <= from && Tiling(rest, from, hi)
    requires first != [] ==> lo <= first[0].srcStart < first[0].srcEnd <= from
    ensures Tiling(first + rest, lo, hi)
  {
  }

  predicate NoRepeats(names: seq<bytes>) {
    forall i, j | 0 <= i < j < |names| :: names[i] != names[j]
  }

  lemma {:induction false} SoleBindingIsLast(tr: seq<Event>, e: Event)
    requires NoRepeats(NamesOf(tr)) && e in tr && e.Bound?
    ensures LastBinding(tr, e.name) == Some(e.cap)
  {
    RebindIsLastBinding(map[], tr[1..], if tr[0].Bound? then tr[0].name else e.name);
    if tr[0].Bound? {
      assert NamesOf(tr)[0] == tr[0].name && NamesOf(tr)[1..] == NamesOf(tr[1..]);
      assert tr[0].name !in NamesOf(tr[1..]);
    }
    assert NoRepeats(NamesOf(tr[1..]));
    if e in tr[1..] {
      SoleBindingIsLast(tr[1..], e);
    }
  }

  lemma {:induction false} EventInside(tr: seq<Event>, lo: nat, hi: nat, e: Event)
    requires InOrder(SrcRanges(tr), lo, hi) && e in tr && SrcRange(e) != []
    ensures lo <= SrcRange(e)[0].start && SrcRange(e)[0].end <= hi
  {
    hide InOrder, SrcRanges, SrcRange;
    var from := LaterEvents(tr, lo, hi);
    if e != tr[0] {
      EventInside(tr[1..], from, hi, e);
    } else {
      FirstRangeEnds(tr, lo, hi);
    }
  }

  lemma FirstRangeEnds(tr: seq<Event>, lo: nat, hi: nat)
    requires InOrder(SrcRanges(tr), lo, hi) && tr != [] && SrcRange(tr[0]) != []
    ensures lo <= SrcRange(tr[0])[0].start && SrcRange(tr[0])[0].end <= hi
  {
    assert SrcRanges(tr)[0] == SrcRange(tr[0])[0];
  }

  /** The anchors of a match whose pattern names nothing twice are its derivation's events with extent. */
  lemma EventsAreCandidates(pt: PatternTree, n: Node, src: bytes, absorbed: seq<Range>, d: Deriv, x: Anchor)
    requires Clear(pt, pt.root) && NodeHolds(pt, pt.root, n, src, d)
    requires WellFormed(pt.root) && WellFormed(n) && n.end <= |src|
    requires IMPLICIT !in AllNames(pt, pt.root) && OUTER !in AllNames(pt, pt.root) && NoRepeats(AllNames(pt, pt.root))
    ensures x in AnchorsOf(NodeTrace(pt, pt.root, n, src, d), src)
       <==> Candidate(ResultOf(pt, n, src, absorbed, d), src, NodeToCapture(n, src), x)
  {
    hide NodeHolds, NodeTrace, NodeDropped, Clear, AllNames, WellFormed, Candidate, ResultOf, AnchorAt, NoRepeats;
    var m, tr, outer := ResultOf(pt, n, src, absorbed, d), NodeTrace(pt, pt.root, n, src, d), NodeToCapture(n, src);
    AnchorIsOfEvent(tr, src, x);
    if Candidate(m, src, outer, x) {
      var i := CandidateIsEvent(pt, n, src, absorbed, d, outer, x);
      HasExtent(m, src, outer, x);
      EventOfCandidate(tr[i], src, x);
    }
    if e :| e in tr && x in AnchorAt(e, src) {
      EventIsCandidate(pt, n, src, absorbed, d, e, x);
    }
  }

  lemma HasExtent(m: RawMatch, src: bytes, outer: Capture, x: Anchor)
    requires Candidate(m, src, outer, x)
    ensures x.srcStart < x.srcEnd
  {
  }

  /** They are its anchor list, and its only one. */
  lemma AnchorsAreEvents(pt: PatternTree, n: Node, src: bytes, absorbed: seq<Range>, d: Deriv, kept: seq<Anchor>)
    requires Clear(pt, pt.root) && NodeHolds(pt, pt.root, n, src, d)
    requires WellFormed(pt.root) && WellFormed(n) && n.end <= |src|
    requires IMPLICIT !in AllNames(pt, pt.root) && OUTER !in AllNames(pt, pt.root) && NoRepeats(AllNames(pt, pt.root))
    ensures AnchorList(ResultOf(pt, n, src, absorbed, d), src, NodeToCapture(n, src), kept)
       <==> kept == AnchorsOf(NodeTrace(pt, pt.root, n, src, d), src)
  {
    hide NodeHolds, NodeTrace, NodeDropped, Clear, AllNames, WellFormed, InOrder, AnchorList, Candidate, ResultOf, AllKept,
         Tiling, AnchorAt, NoRepeats, SrcRanges, AnchorsOf;
    var m, tr, outer := ResultOf(pt, n, src, absorbed, d), NodeTrace(pt, pt.root, n, src, d), NodeToCapture(n, src);
    NodeOrdered(pt, pt.root, n, src, d);
    TraceTiles(tr, src, n.start, n.end);
    forall x ensures x in AnchorsOf(tr, src) <==> Candidate(m, src, outer, x) {
      EventsAreCandidates(pt, n, src, absorbed, d, x);
    }
    if AnchorList(m, src, outer, kept) {
      MatchAnchorsAllKept(pt, n, src, absorbed, d, outer, kept);
      ListIs(m, src, outer, kept);
      forall x ensures x in kept <==> Candidate(m, src, outer, x) {
        if Candidate(m, src, outer, x) {
          KeptHas(m, src, outer, kept, x);
        }
      }
      TilingIsUnique(kept, AnchorsOf(tr, src), n.start, n.end);
    } else {
      OuterSpan(n, src);
      TilingOfAll(m, src, outer, AnchorsOf(tr, src));
    }
  }

  lemma TilingOfAll(m: RawMatch, src: bytes, outer: Capture, xs: seq<Anchor>)
    requires Tiling(xs, outer.start, outer.end) && forall x :: x in xs <==> Candidate(m, src, outer, x)
    ensures AnchorList(m, src, outer, xs)
  {
    hide Tiling, Candidate;
  }

  lemma ListIs(m: RawMatch, src: bytes, outer: Capture, kept: seq<Anchor>)
    requires AnchorList(m, src, outer, kept)
    ensures Tiling(kept, outer.start, outer.end)
    ensures forall x | x in kept :: Candidate(m, src, outer, x) && x.srcStart < x.srcEnd
  {
    hide Candidate;
  }

  lemma KeptHas(m: RawMatch, src: bytes, outer: Capture, kept: seq<Anchor>, x: Anchor)
    requires AllKept(m, src, outer, kept) && Candidate(m, src, outer, x)
    ensures x in kept
  {
    hide Candidate;
  }

  lemma EventOfCandidate(e: Event, src: bytes, x: Anchor)
    requires AnchorOf(e, src) == Some(x) && SrcRange(e) == [Range(x.srcStart, x.srcEnd)] && x.srcStart < x.srcEnd
    ensures x in AnchorAt(e, src)
  {
  }

  /** An event with extent is a candidate. */
  lemma EventIsCandidate(pt: PatternTree, n: Node, src: bytes, absorbed: seq<Range>, d: Deriv, e: Event, x: Anchor)
    requires Clear(pt, pt.root) && NodeHolds(pt, pt.root, n, src, d)
    requires WellFormed(pt.root) && WellFormed(n) && n.end <= |src|
    requires IMPLICIT !in AllNames(pt, pt.root) && OUTER !in AllNames(pt, pt.root) && NoRepeats(AllNames(pt, pt.root))
    requires e in NodeTrace(pt, pt.root, n, src, d) && x in AnchorAt(e, src)
    ensures Candidate(ResultOf(pt, n, src, absorbed, d), src, NodeToCapture(n, src), x)
  {
    hide *;
    var tr, outer := NodeTrace(pt, pt.root, n, src, d), NodeToCapture(n, src);
    TraceInOrder(pt, n, src, d);
    EventExtent(e, src, x);
    EventInside(tr, n.start, n.end, e);
    OuterSpan(n, src);
    if e.Bound? {
      NodeNames(pt, pt.root, n, src, d);
      ResultBindings(pt, n, src, absorbed, d);
      NamesNonEmpty(pt, pt.root);
      NameOfEvent(tr, e);
      SoleBindingIsLast(tr, e);
      NamedIsCandidate(ResultOf(pt, n, src, absorbed, d), src, outer, e, x);
    } else {
      AlignOfEvent(tr, e);
      AlignedIsCandidate(pt, n, src, absorbed, d, e, x);
    }
  }

  lemma TraceInOrder(pt: PatternTree, n: Node, src: bytes, d: Deriv)
    requires NodeHolds(pt, pt.root, n, src, d) && WellFormed(pt.root) && WellFormed(n) && n.end <= |src|
    ensures InOrder(SrcRanges(NodeTrace(pt, pt.root, n, src, d)), n.start, n.end)
    ensures InOrder(PatRanges(NodeTrace(pt, pt.root, n, src, d)), pt.root.start, pt.root.end)
  {
    hide NodeHolds, NodeTrace, WellFormed, InOrder, SrcRanges, PatRanges;
    NodeOrdered(pt, pt.root, n, src, d);
  }

  lemma OuterSpan(n: Node, src: bytes)
    ensures NodeToCapture(n, src).start == n.start && NodeToCapture(n, src).end == n.end
  {
  }

  lemma EventExtent(e: Event, src: bytes, x: Anchor)
    requires x in AnchorAt(e, src)
    ensures !e.Skipped? && SrcRange(e) == [Range(x.srcStart, x.srcEnd)]
  {
  }

  lemma NamedIsCandidate(m: RawMatch, src: bytes, outer: Capture, e: Event, x: Anchor)
    requires e.Bound? && x in AnchorAt(e, src) && e.name in m.captures && m.captures[e.name] == e.cap
    requires e.name != [] && e.name != OUTER && outer.start <= x.srcStart && x.srcEnd <= outer.end
    ensures Candidate(m, src, outer, x)
  {
  }

  lemma AlignedIsCandidate(pt: PatternTree, n: Node, src: bytes, absorbed: seq<Range>, d: Deriv, e: Event, x: Anchor)
    requires NodeHolds(pt, pt.root, n, src, d) && e.Aligned? && x in AnchorAt(e, src)
    requires e.a in Derivations.AlignsOf(NodeTrace(pt, pt.root, n, src, d))
    requires n.start <= x.srcStart && x.srcEnd <= n.end
    ensures Candidate(ResultOf(pt, n, src, absorbed, d), src, NodeToCapture(n, src), x)
  {
    hide NodeHolds, NodeTrace, NodeDropped, Rebind, Slice, CommentsOf, CommentsWithin;
    assert e.a in ResultOf(pt, n, src, absorbed, d).alignment;
  }

  lemma {:induction false} NamesNonEmpty(pt: PatternTree, n: Node)
    ensures [] !in AllNames(pt, n)
    decreases n, 1
  {
    AllNamesNonEmpty(pt, n.children);
  }

  lemma {:induction false} AllNamesNonEmpty(pt: PatternTree, ns: seq<Node>)
    ensures [] !in AllNamesOf(pt, ns)
    decreases ns, 0
  {
    hide AllNames;
    if ns != [] {
      NamesNonEmpty(pt, ns[0]);
      AllNamesNonEmpty(pt, ns[1..]);
    }
  }

  lemma {:induction false} NameOfEvent(tr: seq<Event>, e: Event)
    requires e in tr && e.Bound?
    ensures e.name in NamesOf(tr)
  {
    if e != tr[0] {
      NameOfEvent(tr[1..], e);
    }
  }

  lemma {:induction false} AlignOfEvent(tr: seq<Event>, e: Event)
    requires e in tr && e.Aligned?
    ensures e.a in Derivations.AlignsOf(tr)
  {
    if e != tr[0] {
      AlignOfEvent(tr[1..], e);
    }
  }

  // ----- every capture holds its own bytes -----

  predicate HoldsItsText(e: Event, src: bytes) {
    e.Bound? ==> e.cap.text == Slice(src, e.cap.start, e.cap.end)
  }

  predicate AllHoldTheirText(tr: seq<Event>, src: bytes) {
    forall e | e in tr :: HoldsItsText(e, src)
  }

  lemma SeqHoldsItsText(ns: seq<Node>, src: bytes)
    ensures SeqToCapture(ns, src).text == Slice(src, SeqToCapture(ns, src).start, SeqToCapture(ns, src).end)
  {
    hide NamedCaptures;
  }

  lemma {:induction false} SkippedHold(ts: seq<Node>, src: bytes)
    ensures AllHoldTheirText(SkippedAll(ts), src)
  {
    if ts != [] {
      SkippedHold(ts[1..], src);
    }
  }

  lemma {:induction false} NodeHoldsText(pt: PatternTree, p: Node, t: Node, src: bytes, d: Deriv)
    requires NodeHolds(pt, p, t, src, d)
    ensures AllHoldTheirText(NodeTrace(pt, p, t, src, d), src)
    decreases d
  {
    hide SibsHold, SibsTrace, SeqToCapture, Effective, Reading, WithoutLayout, TokenText.AlignedTokenRange, Slice;
    var q, u := Reading(pt, p), Facing(pt, p, t);
    if IsPlaceholder(pt, q) {
      SeqHoldsItsText([Effective(t)], src);
      NodeHoldsItsText(Effective(t), src);
    } else if d.Kids? {
      SibsHoldText(pt, q, PatternKids(pt, q), 0, TargetKids(pt, u, src), src, d.sibs);
    }
  }

  lemma NodeHoldsItsText(n: Node, src: bytes)
    ensures NodeToCapture(n, src).text == Slice(src, NodeToCapture(n, src).start, NodeToCapture(n, src).end)
  {
  }

  lemma {:induction false} SibsHoldText(pt: PatternTree, parent: Node, ps: seq<Node>, idx: nat, ts: seq<Node>,
          src: bytes, s: Sibs)
    requires SibsHold(pt, parent, ps, idx, ts, src, s)
    ensures AllHoldTheirText(SibsTrace(pt, parent, ps, idx, ts, src, s), src)
    decreases s
  {
    hide NodeHolds, NodeTrace, SeqToCapture, LeadComments, Promotes, ChainFrom, SkippedAll, Slice;
    match s
    case Done => SkippedHold(ts, src);
    case Run(k, rest) =>
      SeqHoldsItsText(ts[..k], src);
      SibsHoldText(pt, parent, ps[1..], idx + 1, ts[k..], src, rest);
    case One(head, tail) =>
      var c := LeadComments(ts, pt.cfg.commentKinds);
      SkippedHold(ts[..c], src);
      NodeHoldsText(pt, ps[0], ts[c], src, head);
      SibsHoldText(pt, parent, ps[1..], idx + 1, ts[c + 1..], src, tail);
  }
}
