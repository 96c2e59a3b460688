/**
 What it means for a pattern node to match a target node, stated without search: a derivation says,
 for every child position of the pattern, whether a sequence placeholder takes a run of siblings
 there or the child is matched as an ordinary node. `NodeHolds` and `SibsHold` check one derivation;
 a match exists when some derivation holds. The trace of a derivation is what it records.
 */
module Derivations {
  import opened Bytes
  import opened Outcomes
  import opened SyntaxTree
  import opened TokenText
  import opened MatchRecords

  /** `Leaf`: decided at the node itself. `Kids`: decided by aligning the two child lists. */
  datatype Deriv = Leaf | Kids(sibs: Sibs)

  /** `Done`: the pattern is exhausted. `Run(k)`: a promoted sequence takes `k` siblings.
      `One`: an ordinary child takes one sibling, after any skipped comments. */
  datatype Sibs = Done | Run(k: nat, rest: Sibs) | One(head: Deriv, tail: Sibs)

  predicate IsOpaque(pt: PatternTree, kind: string) {
    kind in pt.cfg.opaqueKinds
  }

  predicate TrimsToken(pt: PatternTree, q: Node, u: Node) {
    pt.cfg.trimsAnonTokens && !q.named && !u.named
  }

  predicate AllIgnorable(ts: seq<Node>, comments: seq<string>) {
    forall i | 0 <= i < |ts| :: IsIgnorableComment(ts[i], comments)
  }

  /** How many ignorable comments the target list starts with. */
  function LeadComments(ts: seq<Node>, comments: seq<string>): (k: nat)
    ensures k <= |ts| && AllIgnorable(ts[..k], comments)
    ensures k < |ts| ==> !IsIgnorableComment(ts[k], comments)
  {
    if ts == [] || !IsIgnorableComment(ts[0], comments) then 0
    else
      var k := LeadComments(ts[1..], comments);
      assert ts[..k + 1] == [ts[0]] + ts[1..][..k];
      k + 1
  }

  function Head(ts: seq<Node>): Option<Node> {
    if ts == [] then None else Some(ts[0])
  }

  /** The pattern child is a sequence position that promotes against this target list. */
  predicate Promotable(pt: PatternTree, parent: Node, idx: nat, p: Node, ts: seq<Node>) {
    SeqChain(pt, p).Some? && Promotes(SeqChain(pt, p).value, parent, idx, Head(ts))
  }

  /** A bare placeholder among siblings: it has no ordinary reading to fall back to. */
  predicate OnlyPromotes(pt: PatternTree, p: Node) {
    SeqChain(pt, p).Some? && SeqChain(pt, p).value.depth == 0
  }

  function PatternKids(pt: PatternTree, q: Node): (r: seq<Node>)
    ensures SizeAll(r) < Size(q)
  {
    WithoutLayout(q.children, pt.source, pt.cfg.layoutTokens)
  }

  function TargetKids(pt: PatternTree, u: Node, src: bytes): seq<Node> {
    WithoutLayout(u.children, src, pt.cfg.layoutTokens)
  }

  /** `d` derives a match of pattern node `p` against target node `t`. */
  predicate NodeHolds(pt: PatternTree, p: Node, t: Node, src: bytes, d: Deriv)
    decreases d
  {
    var q, u := Reading(pt, p), Facing(pt, p, t);
    if IsPlaceholder(pt, q) then d.Leaf?
    else
      && q.kind == u.kind
      && if IsOpaque(pt, q.kind) then
           d.Leaf? && Text(q, pt.source) == Text(u, src)
         else if q.children == [] && u.children == [] then
           d.Leaf? && TokenTextMatches(Text(q, pt.source), Text(u, src), TrimsToken(pt, q, u))
         else
           d.Kids? && SibsHold(pt, q, PatternKids(pt, q), 0, TargetKids(pt, u, src), src, d.sibs)
  }

  /** `s` derives an alignment of pattern children `ps` (the first at position `idx` of its list)
      with target children `ts`. */
  predicate SibsHold(pt: PatternTree, parent: Node, ps: seq<Node>, idx: nat, ts: seq<Node>, src: bytes,
          s: Sibs)
    decreases s
  {
    match s
    case Done => ps == [] && AllIgnorable(ts, pt.cfg.commentKinds)
    case Run(k, rest) =>
      && ps != [] && Promotable(pt, parent, idx, ps[0], ts)
      && k <= |ts|
      && SibsHold(pt, parent, ps[1..], idx + 1, ts[k..], src, rest)
    case One(head, tail) =>
      && ps != [] && !OnlyPromotes(pt, ps[0])
      && var c := LeadComments(ts, pt.cfg.commentKinds);
      && c < |ts|
      && NodeHolds(pt, ps[0], ts[c], src, head)
      && SibsHold(pt, parent, ps[1..], idx + 1, ts[c + 1..], src, tail)
  }

  // ----- traces -----

  /** One record a derivation makes, in pattern order. A binding carries the placeholder's own range. */
  datatype Event =
    | Aligned(a: TokenAlign)
    | Bound(name: bytes, cap: Capture, pat: Range)
    | Skipped(span: Range)

  function Bind(name: bytes, cap: Capture, pat: Range): seq<Event> {
    if name == [] then [] else [Bound(name, cap, pat)]
  }

  function AlignedAt(q: Node, r: (nat, nat)): Event {
    Aligned(TokenAlign(q.start, q.end, r.0, r.1))
  }

  function SkippedAll(ts: seq<Node>): seq<Event> {
    if ts == [] then [] else [Skipped(Range(ts[0].start, ts[0].end))] + SkippedAll(ts[1..])
  }

  function NodeTrace(pt: PatternTree, p: Node, t: Node, src: bytes, d: Deriv): seq<Event>
    requires NodeHolds(pt, p, t, src, d)
    decreases d
  {
    var q, u := Reading(pt, p), Facing(pt, p, t);
    if IsPlaceholder(pt, q) then PlaceholderTrace(Lookup(pt, q).value, q, t, src)
    else if IsOpaque(pt, q.kind) then [AlignedAt(q, (u.start, u.end))]
    else if q.children == [] && u.children == [] then
      [AlignedAt(q, AlignedTokenRange(src, u.start, u.end, TrimsToken(pt, q, u)))]
    else
      SibsTrace(pt, q, PatternKids(pt, q), 0, TargetKids(pt, u, src), src, d.sibs)
  }

  function PlaceholderTrace(ph: Placeholder, q: Node, t: Node, src: bytes): seq<Event> {
    match ph.kind
    case KindNode => Bind(ph.name, NodeToCapture(Effective(t), src), Range(q.start, q.end))
    case KindSeq => Bind(ph.name, SeqToCapture([Effective(t)], src), Range(q.start, q.end))
    case KindSeqWild => Bind(ph.name, SeqToCapture([Effective(t)], src), Range(q.start, q.end))
    case _ => []
  }

  function SibsTrace(pt: PatternTree, parent: Node, ps: seq<Node>, idx: nat, ts: seq<Node>, src: bytes,
          s: Sibs): seq<Event>
    requires SibsHold(pt, parent, ps, idx, ts, src, s)
    decreases s
  {
    match s
    case Done => SkippedAll(ts)
    case Run(k, rest) =>
      var chain := SeqChain(pt, ps[0]).value;
      Bind(chain.ph.name, SeqToCapture(ts[..k], src), chain.leaf)
      + SibsTrace(pt, parent, ps[1..], idx + 1, ts[k..], src, rest)
    case One(head, tail) =>
      var c := LeadComments(ts, pt.cfg.commentKinds);
      SkippedAll(ts[..c]) + NodeTrace(pt, ps[0], ts[c], src, head)
      + SibsTrace(pt, parent, ps[1..], idx + 1, ts[c + 1..], src, tail)
  }

  /** The spans the derivation's promotions dropped. A promotion is recorded once the siblings after
      it have matched, so its own spans follow theirs. */
  function NodeDropped(pt: PatternTree, p: Node, t: Node, src: bytes, d: Deriv): seq<Range>
    requires NodeHolds(pt, p, t, src, d)
    decreases d
  {
    match d
    case Leaf => []
    case Kids(s) =>
      var q, u := Reading(pt, p), Facing(pt, p, t);
      SibsDropped(pt, q, PatternKids(pt, q), 0, TargetKids(pt, u, src), src, s)
  }

  function SibsDropped(pt: PatternTree, parent: Node, ps: seq<Node>, idx: nat, ts: seq<Node>, src: bytes,
          s: Sibs): seq<Range>
    requires SibsHold(pt, parent, ps, idx, ts, src, s)
    decreases s
  {
    match s
    case Done => []
    case Run(k, rest) =>
      SibsDropped(pt, parent, ps[1..], idx + 1, ts[k..], src, rest)
      + DroppedSpans(ps[0], SeqChain(pt, ps[0]).value)
    case One(head, tail) =>
      var c := LeadComments(ts, pt.cfg.commentKinds);
      NodeDropped(pt, ps[0], ts[c], src, head)
      + SibsDropped(pt, parent, ps[1..], idx + 1, ts[c + 1..], src, tail)
  }

  // ----- what a trace leaves in the four records -----

  function AlignsOf(tr: seq<Event>): seq<TokenAlign> {
    if tr == [] then []
    else if tr[0].Aligned? then [tr[0].a] + AlignsOf(tr[1..])
    else AlignsOf(tr[1..])
  }

  function CommentsOf(tr: seq<Event>): seq<Range> {
    if tr == [] then []
    else if tr[0].Skipped? then [tr[0].span] + CommentsOf(tr[1..])
    else CommentsOf(tr[1..])
  }

  function NamesOf(tr: seq<Event>): seq<bytes> {
    if tr == [] then []
    else if tr[0].Bound? then [tr[0].name] + NamesOf(tr[1..])
    else NamesOf(tr[1..])
  }

  /** Later bindings of a name overwrite earlier ones. */
  function Rebind(m: map<bytes, Capture>, tr: seq<Event>): map<bytes, Capture>
    decreases |tr|
  {
    if tr == [] then m
    else Rebind(if tr[0].Bound? then m[tr[0].name := tr[0].cap] else m, tr[1..])
  }

  lemma {:induction false} TraceAppend(a: seq<Event>, b: seq<Event>)
    ensures AlignsOf(a + b) == AlignsOf(a) + AlignsOf(b)
    ensures CommentsOf(a + b) == CommentsOf(a) + CommentsOf(b)
    ensures NamesOf(a + b) == NamesOf(a) + NamesOf(b)
  {
    if a == [] {
      assert a + b == b;
    } else {
      assert (a + b)[1..] == a[1..] + b && (a + b)[0] == a[0];
      TraceAppend(a[1..], b);
      match a[0]
      case Aligned(x) => assert ([x] + AlignsOf(a[1..])) + AlignsOf(b) == [x] + (AlignsOf(a[1..]) + AlignsOf(b));
      case Bound(n, _, _) => assert ([n] + NamesOf(a[1..])) + NamesOf(b) == [n] + (NamesOf(a[1..]) + NamesOf(b));
      case Skipped(c) => assert ([c] + CommentsOf(a[1..])) + CommentsOf(b) == [c] + (CommentsOf(a[1..]) + CommentsOf(b));
    }
  }

  lemma {:induction false} RebindAppend(m: map<bytes, Capture>, a: seq<Event>, b: seq<Event>)
    ensures Rebind(m, a + b) == Rebind(Rebind(m, a), b)
    decreases |a|
  {
    if a == [] {
      assert a + b == b;
    } else {
      assert (a + b)[1..] == a[1..] + b && (a + b)[0] == a[0];
      RebindAppend(if a[0].Bound? then m[a[0].name := a[0].cap] else m, a[1..], b);
    }
  }

  lemma {:induction false} SkippedAllRecords(ts: seq<Node>)
    ensures AlignsOf(SkippedAll(ts)) == [] && NamesOf(SkippedAll(ts)) == []
    ensures CommentsOf(SkippedAll(ts)) == SkippedSpans(ts)
    ensures forall m :: Rebind(m, SkippedAll(ts)) == m
  {
    if ts != [] {
      SkippedAllRecords(ts[1..]);
      assert SkippedAll(ts)[1..] == SkippedAll(ts[1..]);
    }
  }

  function SkippedSpans(ts: seq<Node>): seq<Range> {
    if ts == [] then [] else [Range(ts[0].start, ts[0].end)] + SkippedSpans(ts[1..])
  }

  /** Where two binding maps agree outside the names a trace binds, the trace makes them equal. */
  lemma {:induction false} RebindForgets(m1: map<bytes, Capture>, m2: map<bytes, Capture>, tr: seq<Event>)
    requires AgreeOutside(m1, m2, NamesOf(tr))
    ensures Rebind(m1, tr) == Rebind(m2, tr)
    decreases |tr|
  {
    if tr != [] {
      var n1 := if tr[0].Bound? then m1[tr[0].name := tr[0].cap] else m1;
      var n2 := if tr[0].Bound? then m2[tr[0].name := tr[0].cap] else m2;
      forall n | n !in NamesOf(tr[1..]) ensures SameAt(n1, n2, n) {
        if !tr[0].Bound? || n != tr[0].name {
          assert n !in NamesOf(tr);
          assert SameAt(m1, m2, n);
        }
      }
      RebindForgets(n1, n2, tr[1..]);
    } else {
      assert forall n :: SameAt(m1, m2, n);
      assert m1 == m2 by {
        forall n ensures (n in m1 <==> n in m2) && (n in m1 ==> m1[n] == m2[n]) {
          assert SameAt(m1, m2, n);
        }
      }
    }
  }

  predicate SameAt(m1: map<bytes, Capture>, m2: map<bytes, Capture>, n: bytes) {
    (n in m1 <==> n in m2) && (n in m1 ==> m1[n] == m2[n])
  }

  ghost predicate AgreeOutside(m1: map<bytes, Capture>, m2: map<bytes, Capture>, names: seq<bytes>) {
    forall n | n !in names :: SameAt(m1, m2, n)
  }
}
