/**
 Matching is order preserving: on well-formed trees the records of a derivation stand in ascending,
 disjoint source order and in ascending, disjoint pattern order, every aligned token names bytes that
 agree with the pattern's, and no pattern byte is both aligned and dropped.
 */
module TraceOrder {
  import opened Bytes
  import opened SyntaxTree
  import opened TokenText
  import opened MatchRecords
  import opened Derivations

  /** Ascending and pairwise disjoint ranges inside [lo, hi). */
  predicate InOrder(rs: seq<Range>, lo: nat, hi: nat)
    decreases |rs|
  {
    && lo <= hi
    && (rs == [] || (lo <= rs[0].start <= rs[0].end <= hi && InOrder(rs[1..], rs[0].end, hi)))
  }

  lemma {:induction false} InOrderAppend(a: seq<Range>, b: seq<Range>, lo: nat, mid: nat, hi: nat)
    requires InOrder(a, lo, mid) && InOrder(b, mid, hi)
    ensures InOrder(a + b, lo, hi)
    decreases |a|
  {
    if a == [] {
      assert a + b == b;
      InOrderWiden(b, mid, hi, lo, hi);
    } else {
      assert (a + b)[1..] == a[1..] + b && (a + b)[0] == a[0];
      InOrderAppend(a[1..], b, a[0].end, mid, hi);
    }
  }

  lemma {:induction false} InOrderWiden(a: seq<Range>, lo: nat, hi: nat, lo': nat, hi': nat)
    requires InOrder(a, lo, hi) && lo' <= lo && hi <= hi'
    ensures InOrder(a, lo', hi')
    decreases |a|
  {
    if a != [] {
      InOrderWiden(a[1..], a[0].end, hi, a[0].end, hi');
    }
  }

  lemma {:induction false} InOrderAt(rs: seq<Range>, lo: nat, hi: nat, i: nat)
    requires InOrder(rs, lo, hi) && i < |rs|
    ensures lo <= rs[i].start <= rs[i].end <= hi
    ensures forall j | i < j < |rs| :: rs[i].end <= rs[j].start
    decreases |rs|
  {
    if i > 0 {
      InOrderAt(rs[1..], rs[0].end, hi, i - 1);
      assert forall j | i < j < |rs| :: rs[j] == rs[1..][j - 1];
    } else {
      forall j | 0 < j < |rs| ensures rs[0].end <= rs[j].start {
        InOrderAt(rs[1..], rs[0].end, hi, j - 1);
      }
    }
  }

  /** Source ranges of a trace; a binding without extent has no position. */
  function SrcRanges(tr: seq<Event>): seq<Range> {
    if tr == [] then [] else SrcRange(tr[0]) + SrcRanges(tr[1..])
  }

  function SrcRange(e: Event): seq<Range> {
    match e
    case Aligned(a) => [Range(a.srcStart, a.srcEnd)]
    case Bound(_, cap, _) => if cap.start < cap.end then [Range(cap.start, cap.end)] else []
    case Skipped(r) => [r]
  }

  /** Pattern ranges of a trace; a skipped comment has none. */
  function PatRanges(tr: seq<Event>): seq<Range> {
    if tr == [] then [] else PatRange(tr[0]) + PatRanges(tr[1..])
  }

  function PatRange(e: Event): seq<Range> {
    match e
    case Aligned(a) => [Range(a.patStart, a.patEnd)]
    case Bound(_, _, pat) => [pat]
    case Skipped(_) => []
  }

  lemma {:induction false} RangesAppend(a: seq<Event>, b: seq<Event>)
    ensures SrcRanges(a + b) == SrcRanges(a) + SrcRanges(b)
    ensures PatRanges(a + b) == PatRanges(a) + PatRanges(b)
  {
    if a == [] {
      assert a + b == b;
    } else {
      assert (a + b)[1..] == a[1..] + b && (a + b)[0] == a[0];
      RangesAppend(a[1..], b);
      assert (SrcRange(a[0]) + SrcRanges(a[1..])) + SrcRanges(b) == SrcRange(a[0]) + (SrcRanges(a[1..]) + SrcRanges(b));
      assert (PatRange(a[0]) + PatRanges(a[1..])) + PatRanges(b) == PatRange(a[0]) + (PatRanges(a[1..]) + PatRanges(b));
    }
  }

  /** A trace stands in order in both coordinate spaces. */
  predicate Ordered(tr: seq<Event>, plo: nat, phi: nat, tlo: nat, thi: nat) {
    InOrder(PatRanges(tr), plo, phi) && InOrder(SrcRanges(tr), tlo, thi)
  }

  lemma OrderedAppend(a: seq<Event>, b: seq<Event>, plo: nat, pmid: nat, phi: nat, tlo: nat, tmid: nat, thi: nat)
    requires Ordered(a, plo, pmid, tlo, tmid) && Ordered(b, pmid, phi, tmid, thi)
    ensures Ordered(a + b, plo, phi, tlo, thi)
  {
    RangesAppend(a, b);
    InOrderAppend(PatRanges(a), PatRanges(b), plo, pmid, phi);
    InOrderAppend(SrcRanges(a), SrcRanges(b), tlo, tmid, thi);
  }

  lemma OrderedWiden(a: seq<Event>, plo: nat, phi: nat, tlo: nat, thi: nat, plo': nat, phi': nat, tlo': nat, thi': nat)
    requires Ordered(a, plo, phi, tlo, thi) && plo' <= plo && phi <= phi' && tlo' <= tlo && thi <= thi'
    ensures Ordered(a, plo', phi', tlo', thi')
  {
    InOrderWiden(PatRanges(a), plo, phi, plo', phi');
    InOrderWiden(SrcRanges(a), tlo, thi, tlo', thi');
  }

  lemma OrderedOne(e: Event, plo: nat, phi: nat, tlo: nat, thi: nat)
    requires plo <= phi && tlo <= thi
    requires forall r | r in PatRange(e) :: plo <= r.start <= r.end <= phi
    requires forall r | r in SrcRange(e) :: tlo <= r.start <= r.end <= thi
    ensures Ordered([e], plo, phi, tlo, thi)
  {
    assert [e][1..] == [];
    assert PatRanges([e]) == PatRange(e) && SrcRanges([e]) == SrcRange(e);
    if PatRange(e) != [] { assert PatRange(e)[1..] == []; }
    if SrcRange(e) != [] { assert SrcRange(e)[1..] == []; }
  }

  lemma {:induction false} SkippedOrdered(ts: seq<Node>, at: nat, tlo: nat, thi: nat)
    requires Siblings(ts, tlo, thi)
    ensures Ordered(SkippedAll(ts), at, at, tlo, thi)
  {
    if ts != [] {
      SkippedOrdered(ts[1..], at, ts[0].end, thi);
      var e := Skipped(Range(ts[0].start, ts[0].end));
      OrderedOne(e, at, at, tlo, ts[0].end);
      OrderedAppend([e], SkippedAll(ts[1..]), at, at, at, tlo, ts[0].end, thi);
    }
  }

  lemma BindOrdered(name: bytes, cap: Capture, pat: Range, plo: nat, phi: nat, tlo: nat, thi: nat)
    requires plo <= pat.start <= pat.end <= phi && tlo <= thi
    requires cap.start < cap.end ==> tlo <= cap.start && cap.end <= thi
    ensures Ordered(Bind(name, cap, pat), plo, phi, tlo, thi)
  {
    if name != [] {
      OrderedOne(Bound(name, cap, pat), plo, phi, tlo, thi);
    }
  }

  /** The token alignment of a node and of its children runs left to right on both sides. */
  lemma {:induction false} NodeOrdered(pt: PatternTree, p: Node, t: Node, src: bytes, d: Deriv)
    requires NodeHolds(pt, p, t, src, d)
    requires WellFormed(p) && WellFormed(t) && t.end <= |src|
    ensures Ordered(NodeTrace(pt, p, t, src, d), p.start, p.end, t.start, t.end)
    decreases d
  {
    hide Ordered, Effective, SibsHold, SibsTrace, TokenTextMatches, AlignedTokenRange, SeqToCapture, WellFormed, Siblings, SeqChain,
         WithoutLayout, Bind;
    var q, u := Reading(pt, p), Facing(pt, p, t);
    EffectiveWellFormed(p);
    EffectiveWellFormed(t);
    if IsPlaceholder(pt, q) {
      PlaceholderOrdered(Lookup(pt, q).value, q, t, src);
    } else if d.Kids? {
      KidsSiblings(q, pt.source, pt.cfg.layoutTokens);
      KidsSiblings(u, src, pt.cfg.layoutTokens);
      SibsOrdered(pt, q, PatternKids(pt, q), 0, TargetKids(pt, u, src), src, d.sibs, q.start, q.end, u.start, u.end);
    } else {
      Extent(q);
      Extent(u);
      AlignedRangeHoldsComparedBytes(src, u.start, u.end, TrimsToken(pt, q, u));
      OrderedOne(NodeTrace(pt, p, t, src, d)[0], q.start, q.end, u.start, u.end);
    }
  }

  lemma Extent(n: Node)
    requires WellFormed(n)
    ensures n.start <= n.end
  {
  }

  lemma KidsSiblings(n: Node, src: bytes, layout: seq<bytes>)
    requires WellFormed(n)
    ensures Siblings(WithoutLayout(n.children, src, layout), n.start, n.end)
  {
    WithoutLayoutSiblings(n.children, n.start, n.end, src, layout);
  }

  lemma PlaceholderOrdered(ph: Placeholder, q: Node, t: Node, src: bytes)
    requires q.start <= q.end && WellFormed(t)
    ensures Ordered(PlaceholderTrace(ph, q, t, src), q.start, q.end, t.start, t.end)
  {
    hide Ordered, Effective, Bind;
    var leaf := Effective(t);
    Extent(t);
    match ph.kind
    case KindNode => BindOrdered(ph.name, NodeToCapture(leaf, src), Range(q.start, q.end), q.start, q.end, t.start, t.end);
    case KindSeq => BindOrdered(ph.name, SeqToCapture([leaf], src), Range(q.start, q.end), q.start, q.end, t.start, t.end);
    case KindSeqWild => BindOrdered(ph.name, SeqToCapture([leaf], src), Range(q.start, q.end), q.start, q.end, t.start, t.end);
    case _ => EmptyOrdered(q.start, q.end, t.start, t.end);
  }

  lemma EmptyOrdered(plo: nat, phi: nat, tlo: nat, thi: nat)
    requires plo <= phi && tlo <= thi
    ensures Ordered([], plo, phi, tlo, thi)
  {
  }

  lemma SeqCaptureInside(ns: seq<Node>, src: bytes, lo: nat, hi: nat)
    requires Siblings(ns, lo, hi)
    ensures var cap := SeqToCapture(ns, src); cap.start < cap.end ==> lo <= cap.start && cap.end <= hi
  {
    hide NamedCaptures;
    SiblingsFit(ns, lo, hi, |ns|);
  }

  lemma FirstSibling(ns: seq<Node>, lo: nat, hi: nat)
    requires Siblings(ns, lo, hi) && ns != []
    ensures lo <= ns[0].start <= ns[0].end <= hi && WellFormed(ns[0]) && Siblings(ns[1..], ns[0].end, hi)
  {
  }

  lemma {:induction false} SibsOrdered(pt: PatternTree, parent: Node, ps: seq<Node>, idx: nat, ts: seq<Node>,
          src: bytes, s: Sibs, plo: nat, phi: nat, tlo: nat, thi: nat)
    requires SibsHold(pt, parent, ps, idx, ts, src, s)
    requires Siblings(ps, plo, phi) && Siblings(ts, tlo, thi) && thi <= |src|
    ensures Ordered(SibsTrace(pt, parent, ps, idx, ts, src, s), plo, phi, tlo, thi)
    decreases s
  {
    hide Ordered, NodeHolds, NodeTrace, LeadComments, WellFormed, Siblings, ChainFrom, SeqToCapture, SkippedAll, Bind,
         Promotes;
    match s
    case Done =>
      Bounds(ps, plo, phi);
      SkippedOrdered(ts, plo, tlo, thi);
      OrderedWiden(SkippedAll(ts), plo, plo, tlo, thi, plo, phi, tlo, thi);
    case Run(k, rest) =>
      var chain := SeqChain(pt, ps[0]).value;
      FirstSibling(ps, plo, phi);
      ChainLeafInside(pt, ps[0], ps[0], 0);
      var tmid := SiblingsSplit(ts, tlo, thi, k);
      SeqCaptureInside(ts[..k], src, tlo, tmid);
      var cap := SeqToCapture(ts[..k], src);
      BindOrdered(chain.ph.name, cap, chain.leaf, plo, ps[0].end, tlo, tmid);
      SibsOrdered(pt, parent, ps[1..], idx + 1, ts[k..], src, rest, ps[0].end, phi, tmid, thi);
      OrderedAppend(Bind(chain.ph.name, cap, chain.leaf),
                    SibsTrace(pt, parent, ps[1..], idx + 1, ts[k..], src, rest),
                    plo, ps[0].end, phi, tlo, tmid, thi);
    case One(head, tail) =>
      var c := LeadComments(ts, pt.cfg.commentKinds);
      FirstSibling(ps, plo, phi);
      var tmid := SiblingsSplit(ts, tlo, thi, c);
      FirstSibling(ts[c..], tmid, thi);
      assert ts[c..][1..] == ts[c + 1..] && ts[c..][0] == ts[c];
      SkippedOrdered(ts[..c], plo, tlo, tmid);
      NodeOrdered(pt, ps[0], ts[c], src, head);
      var here := NodeTrace(pt, ps[0], ts[c], src, head);
      OrderedWiden(here, ps[0].start, ps[0].end, ts[c].start, ts[c].end, plo, ps[0].end, tmid, ts[c].end);
      OrderedAppend(SkippedAll(ts[..c]), here, plo, plo, ps[0].end, tlo, tmid, ts[c].end);
      SibsOrdered(pt, parent, ps[1..], idx + 1, ts[c + 1..], src, tail, ps[0].end, phi, ts[c].end, thi);
      OrderedAppend(SkippedAll(ts[..c]) + here, SibsTrace(pt, parent, ps[1..], idx + 1, ts[c + 1..], src, tail),
                    plo, ps[0].end, phi, tlo, ts[c].end, thi);
  }

  lemma Bounds(ns: seq<Node>, lo: nat, hi: nat)
    requires Siblings(ns, lo, hi)
    ensures lo <= hi
  {
  }

  // ----- the separate records inherit the order -----

  function AlignSrc(xs: seq<TokenAlign>): seq<Range> {
    if xs == [] then [] else [Range(xs[0].srcStart, xs[0].srcEnd)] + AlignSrc(xs[1..])
  }

  function AlignPat(xs: seq<TokenAlign>): seq<Range> {
    if xs == [] then [] else [Range(xs[0].patStart, xs[0].patEnd)] + AlignPat(xs[1..])
  }

  lemma {:induction false} AlignPatInOrder(tr: seq<Event>, lo: nat, hi: nat)
    requires InOrder(PatRanges(tr), lo, hi)
    ensures InOrder(AlignPat(AlignsOf(tr)), lo, hi)
    decreases |tr|
  {
    if tr != [] {
      var rest, r := tr[1..], PatRange(tr[0]);
      var lo' := if r == [] then lo else r[0].end;
      assert PatRanges(tr)[|r|..] == PatRanges(rest);
      AlignPatInOrder(rest, lo', hi);
      InOrderWiden(AlignPat(AlignsOf(rest)), lo', hi, lo, hi);
      if tr[0].Aligned? {
        assert AlignsOf(tr)[1..] == AlignsOf(rest);
        assert AlignPat(AlignsOf(tr))[1..] == AlignPat(AlignsOf(rest));
      }
    }
  }

  lemma {:induction false} AlignSrcInOrder(tr: seq<Event>, lo: nat, hi: nat)
    requires InOrder(SrcRanges(tr), lo, hi)
    ensures InOrder(AlignSrc(AlignsOf(tr)), lo, hi)
    decreases |tr|
  {
    if tr != [] {
      var rest, r := tr[1..], SrcRange(tr[0]);
      var lo' := if r == [] then lo else r[0].end;
      assert SrcRanges(tr)[|r|..] == SrcRanges(rest);
      AlignSrcInOrder(rest, lo', hi);
      InOrderWiden(AlignSrc(AlignsOf(rest)), lo', hi, lo, hi);
      if tr[0].Aligned? {
        assert AlignsOf(tr)[1..] == AlignsOf(rest);
        assert AlignSrc(AlignsOf(tr))[1..] == AlignSrc(AlignsOf(rest));
      }
    }
  }

  lemma {:induction false} CommentsInOrder(tr: seq<Event>, lo: nat, hi: nat)
    requires InOrder(SrcRanges(tr), lo, hi)
    ensures InOrder(CommentsOf(tr), lo, hi)
    decreases |tr|
  {
    if tr != [] {
      var rest, r := tr[1..], SrcRange(tr[0]);
      var lo' := if r == [] then lo else r[0].end;
      assert SrcRanges(tr)[|r|..] == SrcRanges(rest);
      CommentsInOrder(rest, lo', hi);
      InOrderWiden(CommentsOf(rest), lo', hi, lo, hi);
      if tr[0].Skipped? {
        assert CommentsOf(tr)[1..] == CommentsOf(rest);
      }
    }
  }

  // ----- aligned text agrees -----

  /** `n` is a node of the tree under `top`. */
  ghost predicate Under(top: Node, n: Node)
    decreases top
  {
    n == top || exists i | 0 <= i < |top.children| :: Under(top.children[i], n)
  }

  lemma {:induction false} UnderChild(top: Node, n: Node, c: Node)
    requires Under(top, n) && c in n.children
    ensures Under(top, c)
    decreases top
  {
    if n == top {
      var i :| 0 <= i < |top.children| && top.children[i] == c;
      assert Under(top.children[i], c);
    } else {
      var i :| 0 <= i < |top.children| && Under(top.children[i], n);
      UnderChild(top.children[i], n, c);
    }
  }

  lemma {:induction false} UnderEffective(top: Node, n: Node)
    requires Under(top, n)
    ensures Under(top, Effective(n))
    decreases Size(n)
  {
    hide Under;
    match SameSpanChild(n)
    case None =>
    case Some(c) =>
      UnderChild(top, n, c);
      MemberIsSmaller(c, n.children);
      UnderEffective(top, c);
  }

  ghost predicate AllUnder(top: Node, ns: seq<Node>) {
    forall n | n in ns :: Under(top, n)
  }

  lemma KidsUnder(top: Node, n: Node, src: bytes, layout: seq<bytes>)
    requires Under(top, n)
    ensures AllUnder(top, WithoutLayout(n.children, src, layout))
  {
    hide WithoutLayout, Under;
    forall c | c in WithoutLayout(n.children, src, layout) ensures Under(top, c) {
      UnderChild(top, n, c);
    }
  }

  /** Two anonymous tokens of a grammar that trims such tokens, the first standing at the entry's pattern range. */
  ghost predicate TrimmedPair(pt: PatternTree, p: Node, t: Node, a: TokenAlign, q: Node, u: Node) {
    TrimsToken(pt, q, u) && Under(p, q) && Under(t, u) && q.start == a.patStart && q.end == a.patEnd
  }

  /** The entry's source bytes are the pattern token's, or those bytes trimmed when the entry aligns two
      anonymous tokens and the grammar trims them. */
  ghost predicate TextAgrees(pt: PatternTree, p: Node, t: Node, src: bytes, a: TokenAlign) {
    var pat, tgt := Slice(pt.source, a.patStart, a.patEnd), Slice(src, a.srcStart, a.srcEnd);
    tgt == pat || (tgt == Trim(pat) && exists q, u :: TrimmedPair(pt, p, t, a, q, u))
  }

  ghost predicate AllAgree(pt: PatternTree, p: Node, t: Node, src: bytes, tr: seq<Event>) {
    forall e | e in tr :: e.Aligned? ==> TextAgrees(pt, p, t, src, e.a)
  }

  lemma LeafAgrees(pt: PatternTree, ptop: Node, ttop: Node, src: bytes, q: Node, u: Node)
    requires Under(ptop, q) && Under(ttop, u) && u.start <= u.end <= |src|
    requires TokenTextMatches(Text(q, pt.source), Text(u, src), TrimsToken(pt, q, u))
    ensures TextAgrees(pt, ptop, ttop, src,
                       AlignedAt(q, AlignedTokenRange(src, u.start, u.end, TrimsToken(pt, q, u))).a)
  {
    hide Under, Trim, AlignedTokenRange;
    AlignedRangeHoldsComparedBytes(src, u.start, u.end, TrimsToken(pt, q, u));
    if TrimsToken(pt, q, u) {
      assert TrimmedPair(pt, ptop, ttop, AlignedAt(q, AlignedTokenRange(src, u.start, u.end, true)).a, q, u);
    }
  }

  lemma {:induction false} NodeAgrees(pt: PatternTree, ptop: Node, ttop: Node, p: Node, t: Node, src: bytes, d: Deriv)
    requires NodeHolds(pt, p, t, src, d) && Under(ptop, p) && Under(ttop, t)
    requires WellFormed(t) && t.end <= |src|
    ensures AllAgree(pt, ptop, ttop, src, NodeTrace(pt, p, t, src, d))
    decreases d
  {
    hide Effective, SibsHold, SibsTrace, SeqToCapture, WellFormed, Siblings, SeqChain, WithoutLayout, AlignedTokenRange,
         Trim, Under, TokenTextMatches, TrimsToken, TextAgrees, AllUnder;
    var q, u := Reading(pt, p), Facing(pt, p, t);
    EffectiveWellFormed(t);
    Extent(u);
    UnderEffective(ptop, p);
    UnderEffective(ttop, t);
    if d.Kids? {
      KidsSiblings(u, src, pt.cfg.layoutTokens);
      KidsUnder(ptop, q, pt.source, pt.cfg.layoutTokens);
      KidsUnder(ttop, u, src, pt.cfg.layoutTokens);
      SibsAgree(pt, ptop, ttop, q, PatternKids(pt, q), 0, TargetKids(pt, u, src), src, d.sibs, u.start, u.end);
    } else if !IsPlaceholder(pt, q) {
      if IsOpaque(pt, q.kind) {
        OpaqueAgrees(pt, ptop, ttop, src, q, u);
      } else {
        LeafAgrees(pt, ptop, ttop, src, q, u);
      }
    }
  }

  lemma OpaqueAgrees(pt: PatternTree, ptop: Node, ttop: Node, src: bytes, q: Node, u: Node)
    requires Text(q, pt.source) == Text(u, src)
    ensures TextAgrees(pt, ptop, ttop, src, AlignedAt(q, (u.start, u.end)).a)
  {
    hide TrimmedPair;
  }

  lemma {:induction false} SibsAgree(pt: PatternTree, ptop: Node, ttop: Node, parent: Node, ps: seq<Node>, idx: nat,
          ts: seq<Node>, src: bytes, s: Sibs, tlo: nat, thi: nat)
    requires SibsHold(pt, parent, ps, idx, ts, src, s) && AllUnder(ptop, ps) && AllUnder(ttop, ts)
    requires Siblings(ts, tlo, thi) && thi <= |src|
    ensures AllAgree(pt, ptop, ttop, src, SibsTrace(pt, parent, ps, idx, ts, src, s))
    decreases s
  {
    hide NodeHolds, NodeTrace, LeadComments, WellFormed, Siblings, ChainFrom, SeqToCapture, TextAgrees, Promotes, SkippedAll,
         Under;
    match s
    case Done => NoAligns(ts);
    case Run(k, rest) =>
      var tmid := SiblingsSplit(ts, tlo, thi, k);
      SibsAgree(pt, ptop, ttop, parent, ps[1..], idx + 1, ts[k..], src, rest, tmid, thi);
    case One(head, tail) =>
      var c := LeadComments(ts, pt.cfg.commentKinds);
      var tmid := SiblingsSplit(ts, tlo, thi, c);
      FirstSibling(ts[c..], tmid, thi);
      assert ts[c..][1..] == ts[c + 1..] && ts[c..][0] == ts[c];
      assert ps[0] in ps && ts[c] in ts;
      NoAligns(ts[..c]);
      NodeAgrees(pt, ptop, ttop, ps[0], ts[c], src, head);
      SibsAgree(pt, ptop, ttop, parent, ps[1..], idx + 1, ts[c + 1..], src, tail, ts[c].end, thi);
  }

  lemma {:induction false} NoAligns(ts: seq<Node>)
    ensures forall e | e in SkippedAll(ts) :: !e.Aligned?
  {
    if ts != [] {
      NoAligns(ts[1..]);
    }
  }

  // ----- dropped spans stay clear of aligned ones -----

  predicate DroppedInside(dr: seq<Range>, lo: nat, hi: nat) {
    forall r | r in dr :: lo <= r.start < r.end <= hi
  }

  predicate AlignsInside(tr: seq<Event>, lo: nat, hi: nat) {
    forall e | e in tr :: e.Aligned? ==> lo <= e.a.patStart <= e.a.patEnd <= hi
  }

  /** No dropped pattern byte is aligned. */
  predicate Apart(tr: seq<Event>, dr: seq<Range>) {
    forall e, r | e in tr && r in dr :: e.Aligned? ==> e.a.patEnd <= r.start || r.end <= e.a.patStart
  }

  predicate Kept(tr: seq<Event>, dr: seq<Range>, lo: nat, hi: nat) {
    AlignsInside(tr, lo, hi) && DroppedInside(dr, lo, hi) && Apart(tr, dr)
  }

  lemma KeptAppend(tr1: seq<Event>, dr1: seq<Range>, tr2: seq<Event>, dr2: seq<Range>, dr: seq<Range>,
          lo: nat, mid: nat, hi: nat)
    requires Kept(tr1, dr1, lo, mid) && Kept(tr2, dr2, mid, hi) && lo <= mid <= hi
    requires forall r | r in dr :: r in dr1 || r in dr2
    ensures Kept(tr1 + tr2, dr, lo, hi)
  {
  }

  lemma {:induction false} NodeKept(pt: PatternTree, p: Node, t: Node, src: bytes, d: Deriv)
    requires NodeHolds(pt, p, t, src, d) && WellFormed(p)
    ensures Kept(NodeTrace(pt, p, t, src, d), NodeDropped(pt, p, t, src, d), p.start, p.end)
    decreases d
  {
    hide Effective, SibsHold, SibsTrace, SibsDropped, SeqToCapture, WellFormed, Siblings, SeqChain, WithoutLayout,
         AlignedTokenRange, TokenTextMatches, Kept;
    var q, u := Reading(pt, p), Facing(pt, p, t);
    EffectiveWellFormed(p);
    Extent(q);
    if d.Kids? {
      KidsSiblings(q, pt.source, pt.cfg.layoutTokens);
      SibsKept(pt, q, PatternKids(pt, q), 0, TargetKids(pt, u, src), src, d.sibs, q.start, q.end);
    } else {
      var tr := NodeTrace(pt, p, t, src, d);
      LeafKept(tr, q.start, q.end);
    }
  }

  lemma LeafKept(tr: seq<Event>, lo: nat, hi: nat)
    requires lo <= hi && |tr| <= 1
    requires tr != [] && tr[0].Aligned? ==> tr[0].a.patStart == lo && tr[0].a.patEnd == hi
    ensures Kept(tr, [], lo, hi)
  {
  }

  lemma {:induction false} SibsKept(pt: PatternTree, parent: Node, ps: seq<Node>, idx: nat, ts: seq<Node>,
          src: bytes, s: Sibs, lo: nat, hi: nat)
    requires SibsHold(pt, parent, ps, idx, ts, src, s) && Siblings(ps, lo, hi)
    ensures Kept(SibsTrace(pt, parent, ps, idx, ts, src, s), SibsDropped(pt, parent, ps, idx, ts, src, s), lo, hi)
    decreases s
  {
    hide NodeHolds, NodeTrace, NodeDropped, LeadComments, WellFormed, Siblings, ChainFrom, SeqToCapture, Promotes,
         SkippedAll, Kept;
    match s
    case Done =>
      Bounds(ps, lo, hi);
      SkippedKept(ts, lo, hi);
    case Run(k, rest) =>
      var chain := SeqChain(pt, ps[0]).value;
      FirstSibling(ps, lo, hi);
      ChainLeafInside(pt, ps[0], ps[0], 0);
      var bind := Bind(chain.ph.name, SeqToCapture(ts[..k], src), chain.leaf);
      PromotionKept(ps[0], chain, bind, lo);
      SibsKept(pt, parent, ps[1..], idx + 1, ts[k..], src, rest, ps[0].end, hi);
      KeptAppend(bind, DroppedSpans(ps[0], chain),
                 SibsTrace(pt, parent, ps[1..], idx + 1, ts[k..], src, rest),
                 SibsDropped(pt, parent, ps[1..], idx + 1, ts[k..], src, rest),
                 SibsDropped(pt, parent, ps, idx, ts, src, s), lo, ps[0].end, hi);
    case One(head, tail) =>
      var c := LeadComments(ts, pt.cfg.commentKinds);
      FirstSibling(ps, lo, hi);
      SkippedKept(ts[..c], lo, lo);
      NodeKept(pt, ps[0], ts[c], src, head);
      var here, gone := NodeTrace(pt, ps[0], ts[c], src, head), NodeDropped(pt, ps[0], ts[c], src, head);
      KeptWiden(here, gone, ps[0].start, ps[0].end, lo, ps[0].end);
      KeptAppend(SkippedAll(ts[..c]), [], here, gone, gone, lo, lo, ps[0].end);
      SibsKept(pt, parent, ps[1..], idx + 1, ts[c + 1..], src, tail, ps[0].end, hi);
      KeptAppend(SkippedAll(ts[..c]) + here, gone,
                 SibsTrace(pt, parent, ps[1..], idx + 1, ts[c + 1..], src, tail),
                 SibsDropped(pt, parent, ps[1..], idx + 1, ts[c + 1..], src, tail),
                 SibsDropped(pt, parent, ps, idx, ts, src, s), lo, ps[0].end, hi);
  }

  lemma KeptWiden(tr: seq<Event>, dr: seq<Range>, lo: nat, hi: nat, lo': nat, hi': nat)
    requires Kept(tr, dr, lo, hi) && lo' <= lo && hi <= hi'
    ensures Kept(tr, dr, lo', hi')
  {
  }

  lemma SkippedKept(ts: seq<Node>, lo: nat, hi: nat)
    ensures Kept(SkippedAll(ts), [], lo, hi)
  {
    NoAligns(ts);
  }

  lemma PromotionKept(top: Node, c: Chain, bind: seq<Event>, lo: nat)
    requires lo <= top.start && top.start <= c.leaf.start <= c.leaf.end <= top.end
    requires forall e | e in bind :: !e.Aligned?
    ensures Kept(bind, DroppedSpans(top, c), lo, top.end)
  {
  }
}
