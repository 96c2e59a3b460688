/**
 The matcher as it runs: mutually recursive methods that write into one shared accumulator, bind and
 append speculatively, and roll back only the sequence's own name and three lengths. They are proved
 against the search functions, and the accumulator is proved to end up exactly as if only the
 surviving derivation had ever been tried.
 */
module Walker {
  import opened Bytes
  import opened Outcomes
  import opened SyntaxTree
  import opened TokenText
  import opened MatchRecords
  import opened Derivations
  import opened GreedySearch
  import opened PatternNames

  /** `after` is `before` plus the records of one derivation, and nothing else. */
  ghost predicate Recorded(before: Records, after: Records, tr: seq<Event>, dr: seq<Range>) {
    && after.byName == Rebind(before.byName, tr)
    && after.aligns == before.aligns + AlignsOf(tr)
    && after.dropped == before.dropped + dr
    && after.comments == before.comments + CommentsOf(tr)
  }

  /** What a failed attempt may leave: longer append-only records, and bindings of the names the
      attempted pattern part carries. */
  ghost predicate Abandoned(before: Records, after: Records, names: seq<bytes>) {
    && before.aligns <= after.aligns
    && before.dropped <= after.dropped
    && before.comments <= after.comments
    && AgreeOutside(before.byName, after.byName, names)
  }

  /** What a failed sequence position leaves: the append-only records as they were. */
  ghost predicate RolledBack(before: Records, after: Records, names: seq<bytes>) {
    && after.aligns == before.aligns
    && after.dropped == before.dropped
    && after.comments == before.comments
    && AgreeOutside(before.byName, after.byName, names)
  }

  lemma RecordedThen(a: Records, b: Records, c: Records, tr1: seq<Event>, dr1: seq<Range>,
          tr2: seq<Event>, dr2: seq<Range>)
    requires Recorded(a, b, tr1, dr1) && Recorded(b, c, tr2, dr2)
    ensures Recorded(a, c, tr1 + tr2, dr1 + dr2)
  {
    hide AlignsOf, CommentsOf, Rebind;
    TraceAppend(tr1, tr2);
    RebindAppend(a.byName, tr1, tr2);
  }

  /** A derivation that binds every name a failed try touched hides that the try ever ran. */
  lemma RecordedForgets(a: Records, b: Records, c: Records, names: seq<bytes>, tr: seq<Event>, dr: seq<Range>)
    requires RolledBack(a, b, names) && Recorded(b, c, tr, dr)
    requires forall n | n in names :: n in NamesOf(tr)
    ensures Recorded(a, c, tr, dr)
  {
    hide AlignsOf, CommentsOf, Rebind, NamesOf;
    assert AgreeOutside(a.byName, b.byName, NamesOf(tr));
    RebindForgets(a.byName, b.byName, tr);
  }

  /** Failing after part of a derivation was recorded, on top of an earlier rolled-back try. */
  lemma AbandonedAfter(a: Records, b: Records, c: Records, d: Records, tr: seq<Event>, dr: seq<Range>,
          names: seq<bytes>)
    requires RolledBack(a, b, names) && Recorded(b, c, tr, dr) && Abandoned(c, d, names)
    requires forall n | n in NamesOf(tr) :: n in names
    ensures Abandoned(a, d, names)
  {
    hide AlignsOf, CommentsOf, Rebind, NamesOf;
    RebindOutside(b.byName, tr);
    forall n | n !in names ensures SameAt(a.byName, d.byName, n) {
      assert SameAt(a.byName, b.byName, n);
      assert SameAt(b.byName, c.byName, n);
      assert SameAt(c.byName, d.byName, n);
    }
  }

  lemma {:induction false} RebindOutside(m: map<bytes, Capture>, tr: seq<Event>)
    ensures AgreeOutside(m, Rebind(m, tr), NamesOf(tr))
    decreases |tr|
  {
    if tr != [] {
      var m' := if tr[0].Bound? then m[tr[0].name := tr[0].cap] else m;
      RebindOutside(m', tr[1..]);
      forall n | n !in NamesOf(tr) ensures SameAt(m, Rebind(m, tr), n) {
        assert n !in NamesOf(tr[1..]);
        assert SameAt(m', Rebind(m', tr[1..]), n);
      }
    }
  }

  lemma AgreeWiden(m1: map<bytes, Capture>, m2: map<bytes, Capture>, names: seq<bytes>, more: seq<bytes>)
    requires AgreeOutside(m1, m2, names)
    requires forall n | n in names :: n in more
    ensures AgreeOutside(m1, m2, more)
  {
  }

  /** Entry point: compares the pattern's root with one candidate target node. */
  method MatchTree(pt: PatternTree, target: Node, src: bytes, caps: Captures) returns (ok: bool)
    modifies caps
    ensures ok == FindNode(pt, pt.root, target, src).Some?
    ensures ok == Derivable(pt, pt.root, target, src)
    ensures ok ==>
      var d := FindNode(pt, pt.root, target, src).value;
      && NodeHolds(pt, pt.root, target, src, d) && NodeGreedy(pt, pt.root, target, src, d)
      && (Clear(pt, pt.root) ==>
            Recorded(old(caps.Snap()), caps.Snap(), NodeTrace(pt, pt.root, target, src, d), NodeDropped(pt, pt.root, target, src, d)))
    ensures !ok && Clear(pt, pt.root) ==> Abandoned(old(caps.Snap()), caps.Snap(), AllNames(pt, pt.root))
  {
    hide *;
    FindNodeIffDerivable(pt, pt.root, target, src);
    ok := MatchNode(pt, pt.root, target, src, caps);
    if ok {
      FindNodeGreedy(pt, pt.root, target, src);
    }
  }

  /** One step of the search at a node. */
  lemma NodeStep(pt: PatternTree, p: Node, t: Node, src: bytes)
    ensures var q, u := Reading(pt, p), Facing(pt, p, t);
      if IsPlaceholder(pt, q) then
        && FindNode(pt, p, t, src) == Some(Leaf) && NodeHolds(pt, p, t, src, Leaf)
        && NodeTrace(pt, p, t, src, Leaf) == PlaceholderTrace(Lookup(pt, q).value, q, t, src)
        && NodeDropped(pt, p, t, src, Leaf) == []
      else if q.kind != u.kind then FindNode(pt, p, t, src) == None
      else if q.kind in pt.cfg.opaqueKinds then
        if Text(q, pt.source) != Text(u, src) then FindNode(pt, p, t, src) == None
        else LeafStep(pt, p, t, src, AlignedAt(q, (u.start, u.end)))
      else if q.children == [] && u.children == [] then
        if !TokenTextMatches(Text(q, pt.source), Text(u, src), TrimsToken(pt, q, u))
        then FindNode(pt, p, t, src) == None
        else LeafStep(pt, p, t, src, AlignedAt(q, AlignedTokenRange(src, u.start, u.end, TrimsToken(pt, q, u))))
      else
        var found := FindSibs(pt, q, PatternKids(pt, q), 0, TargetKids(pt, u, src), src);
        && FindNode(pt, p, t, src) == (if found.Some? then Some(Kids(found.value)) else None)
        && (found.Some? && SibsHold(pt, q, PatternKids(pt, q), 0, TargetKids(pt, u, src), src, found.value) ==>
            && NodeHolds(pt, p, t, src, Kids(found.value))
            && NodeTrace(pt, p, t, src, Kids(found.value))
               == SibsTrace(pt, q, PatternKids(pt, q), 0, TargetKids(pt, u, src), src, found.value)
            && NodeDropped(pt, p, t, src, Kids(found.value))
               == SibsDropped(pt, q, PatternKids(pt, q), 0, TargetKids(pt, u, src), src, found.value))
  {
    hide FindSibs, FindRun, SibsHold, SibsTrace, SibsDropped, TokenTextMatches, AlignedTokenRange, Effective,
         PlaceholderTrace, SeqChain, Lookup;
  }

  ghost predicate LeafStep(pt: PatternTree, p: Node, t: Node, src: bytes, e: Event) {
    && FindNode(pt, p, t, src) == Some(Leaf) && NodeHolds(pt, p, t, src, Leaf)
    && NodeTrace(pt, p, t, src, Leaf) == [e] && NodeDropped(pt, p, t, src, Leaf) == []
  }

  lemma AlignRecorded(a: Records, b: Records, x: TokenAlign)
    requires b == a.(aligns := a.aligns + [x])
    ensures Recorded(a, b, [Aligned(x)], [])
  {
    assert [Aligned(x)][1..] == [];
  }

  lemma PlaceholderRecorded(a: Records, b: Records, ph: Placeholder, q: Node, t: Node, src: bytes)
    requires b == a.(byName :=
      if ph.name == [] || ph.kind.KindNodeWild? || ph.kind.KindLiteralDollar? then a.byName
      else if ph.kind.KindNode? then a.byName[ph.name := NodeToCapture(Effective(t), src)]
      else a.byName[ph.name := SeqToCapture([Effective(t)], src)])
    ensures Recorded(a, b, PlaceholderTrace(ph, q, t, src), [])
  {
    hide SeqToCapture, NodeToCapture, Effective, Bind, Recorded;
    var pat := Range(q.start, q.end);
    match ph.kind
    case KindNode => BindRecorded(a, b, ph.name, NodeToCapture(Effective(t), src), pat);
    case KindSeq => BindRecorded(a, b, ph.name, SeqToCapture([Effective(t)], src), pat);
    case KindSeqWild => BindRecorded(a, b, ph.name, SeqToCapture([Effective(t)], src), pat);
    case _ => NothingRecorded(a);
  }

  /** Binds what the placeholder binds; a literal dollar binds nothing and is no placeholder position. */
  method BindPlaceholder(ph: Placeholder, ghost q: Node, t: Node, src: bytes, caps: Captures) returns (bound: bool)
    modifies caps
    ensures bound == ph.Binds()
    ensures bound ==> Recorded(old(caps.Snap()), caps.Snap(), PlaceholderTrace(ph, q, t, src), [])
    ensures !bound ==> caps.Snap() == old(caps.Snap())
  {
    hide Recorded, PlaceholderTrace, NodeToCapture, SeqToCapture, Effective;
    ghost var start := caps.Snap();
    match ph.kind {
      case KindNode =>
        var leaf := EffectiveNode(t);
        caps.BindNode(ph.name, leaf, src);
      case KindNodeWild =>
      case KindSeq | KindSeqWild =>
        var leaf := EffectiveNode(t);
        caps.BindSeq(ph.name, [leaf], src);
      case KindLiteralDollar =>
        return false;
    }
    PlaceholderRecorded(start, caps.Snap(), ph, q, t, src);
    return true;
  }

  method RecordToken(q: Node, srcStart: nat, srcEnd: nat, caps: Captures)
    modifies caps
    ensures Recorded(old(caps.Snap()), caps.Snap(), [AlignedAt(q, (srcStart, srcEnd))], [])
  {
    hide Recorded;
    ghost var start := caps.Snap();
    caps.RecordAlignRange(q, srcStart, srcEnd);
    AlignRecorded(start, caps.Snap(), TokenAlign(q.start, q.end, srcStart, srcEnd));
  }

  method MatchNode(pt: PatternTree, p: Node, t: Node, src: bytes, caps: Captures) returns (ok: bool)
    modifies caps
    ensures ok == FindNode(pt, p, t, src).Some?
    ensures ok ==>
      var d := FindNode(pt, p, t, src).value;
      && NodeHolds(pt, p, t, src, d)
      && (Clear(pt, p) ==>
            Recorded(old(caps.Snap()), caps.Snap(), NodeTrace(pt, p, t, src, d), NodeDropped(pt, p, t, src, d)))
    ensures !ok && Clear(pt, p) ==> Abandoned(old(caps.Snap()), caps.Snap(), AllNames(pt, p))
    decreases Size(p), 1, 0
  {
    hide FindNode, FindSibs, FindRun, NodeHolds, SibsHold, Clear, ClearAll, Effective, NodeTrace, SibsTrace,
         NodeDropped, SibsDropped, AllNames, AllNamesOf, Recorded, Abandoned, SeqChain, Lookup, PatternKids, TargetKids,
         NodeToCapture, SeqToCapture, PlaceholderTrace, TokenTextMatches, AlignedTokenRange, Text;
    ghost var start := caps.Snap();
    NothingAbandoned(start, AllNames(pt, p));
    NodeStep(pt, p, t, src);
    if Clear(pt, p) {
      ReadingNames(pt, p);
      if !IsPlaceholder(pt, Reading(pt, p)) {
        KidsNames(pt, Reading(pt, p));
      }
    }
    var q, u := p, t;
    var chain := FindSeqChain(pt, p);
    if chain.None? {
      q := EffectiveNode(p);
    }
    var found := Lookup(pt, q);
    if found.Some? {
      var ph := found.value;
      var bound := BindPlaceholder(ph, q, t, src, caps);
      if bound {
        return true;
      }
    }
    if q != p {
      u := EffectiveNode(t);
    }
    if q.kind != u.kind {
      return false;
    }
    if q.kind in pt.cfg.opaqueKinds {
      if Text(q, pt.source) != Text(u, src) {
        return false;
      }
      RecordToken(q, u.start, u.end, caps);
      return true;
    }
    if q.children == [] && u.children == [] {
      var trim := pt.cfg.trimsAnonTokens && !q.named && !u.named;
      if !TokenTextMatches(Text(q, pt.source), Text(u, src), trim) {
        return false;
      }
      var r := AlignedTokenRange(src, u.start, u.end, trim);
      RecordToken(q, r.0, r.1, caps);
      return true;
    }
    ok := MatchChildren(pt, q, u, src, caps);
  }

  /** Aligns all children, anonymous tokens included, declared layout tokens dropped on both sides. */
  method MatchChildren(pt: PatternTree, q: Node, u: Node, src: bytes, caps: Captures) returns (ok: bool)
    modifies caps
    ensures var ps, ts := PatternKids(pt, q), TargetKids(pt, u, src);
      && ok == FindSibs(pt, q, ps, 0, ts, src).Some?
      && (ok ==>
          var s := FindSibs(pt, q, ps, 0, ts, src).value;
          && SibsHold(pt, q, ps, 0, ts, src, s)
          && (ClearAll(pt, ps) ==>
                Recorded(old(caps.Snap()), caps.Snap(), SibsTrace(pt, q, ps, 0, ts, src, s),
                         SibsDropped(pt, q, ps, 0, ts, src, s))))
      && (!ok && ClearAll(pt, ps) ==> Abandoned(old(caps.Snap()), caps.Snap(), AllNamesOf(pt, ps)))
    decreases Size(q), 0, 0
  {
    hide FindSibs, SibsHold, SibsTrace, SibsDropped, ClearAll, Recorded, Abandoned;
    var ps := AllChildren(q, pt.source, pt.cfg.layoutTokens);
    var ts := AllChildren(u, src, pt.cfg.layoutTokens);
    assert ps == PatternKids(pt, q) && ts == TargetKids(pt, u, src);
    ok := MatchSiblings(pt, q, ps, 0, ts, src, caps);
  }

  /** One step of the search at a position whose promotion aligns. */
  lemma PromotedStep(pt: PatternTree, parent: Node, ps: seq<Node>, idx: nat, ts: seq<Node>, src: bytes)
    requires ps != [] && Promotable(pt, parent, idx, ps[0], ts)
    requires FindRun(pt, parent, ps[1..], idx + 1, ts, src, |ts|).Some?
    ensures var s := FindRun(pt, parent, ps[1..], idx + 1, ts, src, |ts|).value;
            var chain := SeqChain(pt, ps[0]).value;
            && FindSibs(pt, parent, ps, idx, ts, src) == Some(s)
            && SibsHold(pt, parent, ps, idx, ts, src, s)
            && SibsHold(pt, parent, ps[1..], idx + 1, ts[s.k..], src, s.rest)
            && SibsTrace(pt, parent, ps, idx, ts, src, s)
               == Bind(chain.ph.name, SeqToCapture(ts[..s.k], src), chain.leaf)
                  + SibsTrace(pt, parent, ps[1..], idx + 1, ts[s.k..], src, s.rest)
            && SibsDropped(pt, parent, ps, idx, ts, src, s)
               == SibsDropped(pt, parent, ps[1..], idx + 1, ts[s.k..], src, s.rest) + DroppedSpans(ps[0], chain)
  {
    hide FindNode, FindRun, NodeHolds, NodeTrace, NodeDropped;
    var s := FindRun(pt, parent, ps[1..], idx + 1, ts, src, |ts|).value;
    FindSibsSound(pt, parent, ps[1..], idx + 1, ts[s.k..], src);
  }

  /** One step of the search at a position matched as an ordinary node. */
  lemma OrdinaryStep(pt: PatternTree, parent: Node, ps: seq<Node>, idx: nat, ts: seq<Node>, src: bytes)
    requires ps != [] && !OnlyPromotes(pt, ps[0])
    requires Promotable(pt, parent, idx, ps[0], ts) ==> FindRun(pt, parent, ps[1..], idx + 1, ts, src, |ts|).None?
    ensures var c := LeadComments(ts, pt.cfg.commentKinds);
            FindSibs(pt, parent, ps, idx, ts, src)
            == if c == |ts| then None
               else
                 var d := FindNode(pt, ps[0], ts[c], src);
                 var r := FindSibs(pt, parent, ps[1..], idx + 1, ts[c + 1..], src);
                 if d.Some? && r.Some? then Some(One(d.value, r.value)) else None
  {
    hide FindNode, FindRun, LeadComments;
  }

  lemma OrdinaryHolds(pt: PatternTree, parent: Node, ps: seq<Node>, idx: nat, ts: seq<Node>, src: bytes,
          c: nat, d: Deriv, r: Sibs)
    requires ps != [] && !OnlyPromotes(pt, ps[0])
    requires c == LeadComments(ts, pt.cfg.commentKinds) && c < |ts|
    requires NodeHolds(pt, ps[0], ts[c], src, d)
    requires SibsHold(pt, parent, ps[1..], idx + 1, ts[c + 1..], src, r)
    ensures SibsHold(pt, parent, ps, idx, ts, src, One(d, r))
    ensures SibsTrace(pt, parent, ps, idx, ts, src, One(d, r))
         == SkippedAll(ts[..c]) + NodeTrace(pt, ps[0], ts[c], src, d)
            + SibsTrace(pt, parent, ps[1..], idx + 1, ts[c + 1..], src, r)
    ensures SibsDropped(pt, parent, ps, idx, ts, src, One(d, r))
         == NodeDropped(pt, ps[0], ts[c], src, d)
            + SibsDropped(pt, parent, ps[1..], idx + 1, ts[c + 1..], src, r)
  {
    hide NodeHolds, NodeTrace, NodeDropped, LeadComments, SkippedAll;
  }

  /** Records and passes over the ignorable comments the target list starts with. */
  method SkipComments(ts: seq<Node>, comments: seq<string>, caps: Captures) returns (rest: seq<Node>)
    modifies caps
    ensures rest == ts[LeadComments(ts, comments)..]
    ensures Recorded(old(caps.Snap()), caps.Snap(), SkippedAll(ts[..LeadComments(ts, comments)]), [])
  {
    hide AlignsOf, CommentsOf, Rebind, Recorded, SkippedAll;
    ghost var i := 0;
    rest := ts;
    NothingRecorded(caps.Snap());
    while |rest| > 0 && IsIgnorableComment(rest[0], comments)
      invariant 0 <= i <= |ts| && rest == ts[i..]
      invariant i + LeadComments(rest, comments) == LeadComments(ts, comments)
      invariant Recorded(old(caps.Snap()), caps.Snap(), SkippedAll(ts[..i]), [])
    {
      label before:
      caps.RecordComment(rest[0]);
      OneSkipped(old(caps.Snap()), old@before(caps.Snap()), caps.Snap(), ts, i);
      rest := rest[1..];
      i := i + 1;
    }
  }

  lemma NothingRecorded(a: Records)
    ensures Recorded(a, a, SkippedAll([]), [])
  {
  }

  lemma OneSkipped(a: Records, b: Records, c: Records, ts: seq<Node>, i: nat)
    requires i < |ts| && Recorded(a, b, SkippedAll(ts[..i]), [])
    requires c == b.(comments := b.comments + [Range(ts[i].start, ts[i].end)])
    ensures Recorded(a, c, SkippedAll(ts[..i + 1]), [])
  {
    hide Recorded, SkippedAll;
    var span := Range(ts[i].start, ts[i].end);
    SkippedAllAppend(ts[..i], ts[i]);
    assert ts[..i + 1] == ts[..i] + [ts[i]];
    SkipRecorded(b, c, span);
    RecordedThen(a, b, c, SkippedAll(ts[..i]), [], [Skipped(span)], []);
    var none: seq<Range> := [];
    assert none + none == none;
  }

  lemma SkipRecorded(a: Records, b: Records, span: Range)
    requires b == a.(comments := a.comments + [span])
    ensures Recorded(a, b, [Skipped(span)], [])
  {
    assert [Skipped(span)][1..] == [];
    assert CommentsOf([Skipped(span)]) == [span] + CommentsOf([]);
  }

  lemma {:induction false} SkippedAllAppend(ts: seq<Node>, t: Node)
    ensures SkippedAll(ts + [t]) == SkippedAll(ts) + [Skipped(Range(t.start, t.end))]
  {
    if ts == [] {
      assert [] + [t] == [t];
    } else {
      assert (ts + [t])[1..] == ts[1..] + [t] && (ts + [t])[0] == ts[0];
      SkippedAllAppend(ts[1..], t);
    }
  }

  /** The pattern is exhausted: what is left of the target must be ignorable comments. They are
      checked before any of them is recorded. */
  method FinishSiblings(ts: seq<Node>, comments: seq<string>, caps: Captures) returns (ok: bool)
    modifies caps
    ensures ok == AllIgnorable(ts, comments)
    ensures ok ==> Recorded(old(caps.Snap()), caps.Snap(), SkippedAll(ts), [])
    ensures !ok ==> caps.Snap() == old(caps.Snap())
  {
    hide AlignsOf, CommentsOf, Rebind, Recorded, SkippedAll;
    for i := 0 to |ts|
      invariant AllIgnorable(ts[..i], comments)
      invariant caps.Snap() == old(caps.Snap())
    {
      if !IsIgnorableComment(ts[i], comments) {
        return false;
      }
    }
    NothingRecorded(caps.Snap());
    for i := 0 to |ts|
      invariant Recorded(old(caps.Snap()), caps.Snap(), SkippedAll(ts[..i]), [])
    {
      label before:
      caps.RecordComment(ts[i]);
      OneSkipped(old(caps.Snap()), old@before(caps.Snap()), caps.Snap(), ts, i);
    }
    assert ts[..|ts|] == ts;
    return true;
  }

  lemma NothingAbandoned(a: Records, names: seq<bytes>)
    ensures Abandoned(a, a, names) && RolledBack(a, a, names)
  {
  }

  lemma DroppedLast(a: Records, b: Records, c: Records, tr: seq<Event>, dr: seq<Range>, more: seq<Range>)
    requires Recorded(a, b, tr, dr) && c == b.(dropped := b.dropped + more)
    ensures Recorded(a, c, tr, dr + more)
  {
  }

  lemma Widen(a: Records, b: Records, names: seq<bytes>, more: seq<bytes>)
    requires forall n | n in names :: n in more
    ensures RolledBack(a, b, names) ==> RolledBack(a, b, more) && Abandoned(a, b, more)
    ensures Abandoned(a, b, names) ==> Abandoned(a, b, more)
  {
    if AgreeOutside(a.byName, b.byName, names) {
      AgreeWiden(a.byName, b.byName, names, more);
    }
  }

  /** The name and clearness facts of a non-empty sibling list, one step apart. */
  lemma SiblingsStep(pt: PatternTree, ps: seq<Node>)
    requires ps != []
    ensures ClearAll(pt, ps) ==> Clear(pt, ps[0]) && ClearAll(pt, ps[1..])
    ensures AllNamesOf(pt, ps) == AllNames(pt, ps[0]) + AllNamesOf(pt, ps[1..])
    ensures Size(ps[0]) <= SizeAll(ps) && SizeAll(ps[1..]) < SizeAll(ps)
  {
  }

  method MatchSiblings(pt: PatternTree, parent: Node, ps: seq<Node>, idx: nat, ts: seq<Node>, src: bytes,
          caps: Captures) returns (ok: bool)
    modifies caps
    ensures ok == FindSibs(pt, parent, ps, idx, ts, src).Some?
    ensures ok ==>
      var s := FindSibs(pt, parent, ps, idx, ts, src).value;
      && SibsHold(pt, parent, ps, idx, ts, src, s)
      && (ClearAll(pt, ps) ==>
            Recorded(old(caps.Snap()), caps.Snap(), SibsTrace(pt, parent, ps, idx, ts, src, s),
                     SibsDropped(pt, parent, ps, idx, ts, src, s)))
    ensures !ok && ClearAll(pt, ps) ==> Abandoned(old(caps.Snap()), caps.Snap(), AllNamesOf(pt, ps))
    decreases SizeAll(ps), 2, 1
  {
    hide FindNode, FindSibs, FindRun, NodeHolds, SibsHold, NodeTrace, SibsTrace, NodeDropped, SibsDropped, Recorded,
         RolledBack, Abandoned, AllNames, AllNamesOf, Clear, ClearAll, NamesOf, AlignsOf, CommentsOf, SkippedAll,
         LeadComments, SeqChain, Promotes, OnlyPromotes, Promotable, DroppedSpans, SeqToCapture, Bind, AgreeOutside, Rebind;
    ghost var start := caps.Snap();
    if |ps| == 0 {
      EmptyStep(pt, parent, ps, idx, ts, src);
      ok := FinishSiblings(ts, pt.cfg.commentKinds, caps);
      NothingAbandoned(start, AllNamesOf(pt, ps));
      return;
    }
    SiblingsStep(pt, ps);
    var pHead, pRest := ps[0], ps[1..];
    ghost var names, restNames := AllNamesOf(pt, ps), AllNamesOf(pt, pRest);
    var tHead := if |ts| > 0 then Some(ts[0]) else None;
    var chain := FindSeqChain(pt, pHead);
    PositionKinds(pt, parent, idx, pHead, ts, chain);
    NothingAbandoned(start, restNames);
    if chain.Some? && Promotes(chain.value, parent, idx, tHead) {
      ok := MatchSeqShadow(pt, chain.value.ph, chain.value.leaf, parent, pRest, idx + 1, ts, src, caps);
      if ok {
        PromotedStep(pt, parent, ps, idx, ts, src);
        ghost var matched := caps.Snap();
        caps.RecordDropped(pHead, chain.value);
        ghost var run := FindSibs(pt, parent, ps, idx, ts, src).value;
        if ClearAll(pt, ps) {
          DroppedLast(start, matched, caps.Snap(), SibsTrace(pt, parent, ps, idx, ts, src, run),
                      SibsDropped(pt, parent, pRest, idx + 1, ts[run.k..], src, run.rest), DroppedSpans(pHead, chain.value));
        }
        return;
      }
      if chain.value.depth == 0 {
        OnlyPromotesStep(pt, parent, ps, idx, ts, src);
        Widen(start, caps.Snap(), restNames, names);
        return false;
      }
    }
    ok := MatchOrdinary(pt, parent, ps, idx, ts, src, caps, start);
  }

  /** The ordinary reading, after `start` and a promotion that was rolled back or not tried. */
  method MatchOrdinary(pt: PatternTree, parent: Node, ps: seq<Node>, idx: nat, ts: seq<Node>, src: bytes,
          caps: Captures, ghost start: Records) returns (ok: bool)
    requires ps != [] && !OnlyPromotes(pt, ps[0])
    requires Promotable(pt, parent, idx, ps[0], ts) ==> FindRun(pt, parent, ps[1..], idx + 1, ts, src, |ts|).None?
    requires ClearAll(pt, ps) ==> RolledBack(start, caps.Snap(), AllNamesOf(pt, ps[1..]))
    modifies caps
    ensures ok == FindSibs(pt, parent, ps, idx, ts, src).Some?
    ensures ok ==>
      var s := FindSibs(pt, parent, ps, idx, ts, src).value;
      && SibsHold(pt, parent, ps, idx, ts, src, s)
      && (ClearAll(pt, ps) ==>
            Recorded(start, caps.Snap(), SibsTrace(pt, parent, ps, idx, ts, src, s), SibsDropped(pt, parent, ps, idx, ts, src, s)))
    ensures !ok && ClearAll(pt, ps) ==> Abandoned(start, caps.Snap(), AllNamesOf(pt, ps))
    decreases SizeAll(ps), 2, 0
  {
    hide FindNode, FindSibs, FindRun, NodeHolds, SibsHold, NodeTrace, SibsTrace, NodeDropped, SibsDropped, Recorded,
         RolledBack, Abandoned, AllNames, AllNamesOf, Clear, ClearAll, NamesOf, AlignsOf, CommentsOf, SkippedAll,
         LeadComments, SeqChain, Promotes, OnlyPromotes, Promotable, DroppedSpans, SeqToCapture, Bind, AgreeOutside, Rebind;
    SiblingsStep(pt, ps);
    var pHead, pRest := ps[0], ps[1..];
    ghost var names, restNames := AllNamesOf(pt, ps), AllNamesOf(pt, pRest);
    OrdinaryStep(pt, parent, ps, idx, ts, src);
    ghost var tried := caps.Snap();
    ghost var c := LeadComments(ts, pt.cfg.commentKinds);
    Widen(start, tried, restNames, names);
    var rest := SkipComments(ts, pt.cfg.commentKinds, caps);
    ghost var skipped := caps.Snap();
    SkippedAllRecords(ts[..c]);
    if |rest| == 0 {
      if ClearAll(pt, ps) {
        NothingAbandoned(skipped, names);
        AbandonedAfter(start, tried, skipped, skipped, SkippedAll(ts[..c]), [], names);
      }
      return false;
    }
    ok := MatchNode(pt, pHead, rest[0], src, caps);
    ghost var headed := caps.Snap();
    if !ok {
      if ClearAll(pt, ps) {
        Widen(skipped, headed, AllNames(pt, pHead), names);
        AbandonedAfter(start, tried, skipped, headed, SkippedAll(ts[..c]), [], names);
      }
      return;
    }
    ghost var d := FindNode(pt, pHead, ts[c], src).value;
    ghost var tr := SkippedAll(ts[..c]) + NodeTrace(pt, pHead, ts[c], src, d);
    ghost var dr := [] + NodeDropped(pt, pHead, ts[c], src, d);
    if ClearAll(pt, ps) {
      RecordedThen(tried, skipped, headed, SkippedAll(ts[..c]), [], NodeTrace(pt, pHead, ts[c], src, d),
                   NodeDropped(pt, pHead, ts[c], src, d));
    }
    ok := MatchSiblings(pt, parent, pRest, idx + 1, rest[1..], src, caps);
    if !ok {
      if ClearAll(pt, ps) {
        NodeNames(pt, pHead, ts[c], src, d);
        TraceAppend(SkippedAll(ts[..c]), NodeTrace(pt, pHead, ts[c], src, d));
        Widen(headed, caps.Snap(), restNames, names);
        AbandonedAfter(start, tried, headed, caps.Snap(), tr, dr, names);
      }
      return;
    }
    ghost var r := FindSibs(pt, parent, pRest, idx + 1, ts[c + 1..], src).value;
    ghost var s := One(d, r);
    OrdinaryHolds(pt, parent, ps, idx, ts, src, c, d, r);
    if ClearAll(pt, ps) {
      RecordedThen(tried, headed, caps.Snap(), tr, dr, SibsTrace(pt, parent, pRest, idx + 1, ts[c + 1..], src, r),
                   SibsDropped(pt, parent, pRest, idx + 1, ts[c + 1..], src, r));
      assert [] + NodeDropped(pt, pHead, ts[c], src, d) == NodeDropped(pt, pHead, ts[c], src, d);
      SibsNames(pt, parent, ps, idx, ts, src, s);
      RecordedForgets(start, tried, caps.Snap(), restNames, SibsTrace(pt, parent, ps, idx, ts, src, s),
                      SibsDropped(pt, parent, ps, idx, ts, src, s));
    }
  }

  /** A promoted position: tries the longest run of target siblings first and backs off, restoring
      after each failure the sequence's own binding and the three record lengths. */
  method MatchSeqShadow(pt: PatternTree, ph: Placeholder, ghost leaf: Range, parent: Node, pRest: seq<Node>,
          pRestIdx: nat, ts: seq<Node>, src: bytes, caps: Captures) returns (ok: bool)
    modifies caps
    ensures ok == FindRun(pt, parent, pRest, pRestIdx, ts, src, |ts|).Some?
    ensures ok ==>
      var s := FindRun(pt, parent, pRest, pRestIdx, ts, src, |ts|).value;
      && SibsHold(pt, parent, pRest, pRestIdx, ts[s.k..], src, s.rest)
      && (ClearAll(pt, pRest) ==>
            Recorded(old(caps.Snap()), caps.Snap(),
                     Bind(ph.name, SeqToCapture(ts[..s.k], src), leaf)
                     + SibsTrace(pt, parent, pRest, pRestIdx, ts[s.k..], src, s.rest),
                     SibsDropped(pt, parent, pRest, pRestIdx, ts[s.k..], src, s.rest)))
    ensures !ok && ClearAll(pt, pRest) ==> RolledBack(old(caps.Snap()), caps.Snap(), AllNamesOf(pt, pRest))
    ensures !ok && ph.name != [] ==> SameAt(old(caps.Snap()).byName, caps.Snap().byName, ph.name)
    decreases SizeAll(pRest), 3, 0
  {
    hide FindNode, FindSibs, FindRun, NodeHolds, SibsHold, NodeTrace, SibsTrace, NodeDropped, SibsDropped, Recorded,
         RolledBack, Abandoned, AllNames, AllNamesOf, Clear, ClearAll, NamesOf, AlignsOf, CommentsOf, SkippedAll,
         LeadComments, SeqChain, Promotes, OnlyPromotes, Promotable, DroppedSpans, SeqToCapture, Bind, AgreeOutside, Rebind,
         SameAt;
    ghost var start, names := caps.Snap(), AllNamesOf(pt, pRest);
    NothingAbandoned(start, names);
    SameAsItself(start.byName, ph.name);
    ghost var goal := FindRun(pt, parent, pRest, pRestIdx, ts, src, |ts|);
    var k: int := |ts|;
    while k >= 0
      invariant -1 <= k <= |ts|
      invariant goal == if k < 0 then None else FindRun(pt, parent, pRest, pRestIdx, ts, src, k)
      invariant ClearAll(pt, pRest) ==> RolledBack(start, caps.Snap(), names)
      invariant ph.name != [] ==> SameAt(start.byName, caps.Snap().byName, ph.name)
    {
      ghost var before := caps.Snap();
      var consumed := ts[..k];
      var saved := caps.SaveBinding(ph.name);
      var mark, dmark, cmark := |caps.aligns|, |caps.dropped|, |caps.comments|;
      caps.BindSeq(ph.name, consumed, src);
      ghost var bound := caps.Snap();
      BindRecorded(before, bound, ph.name, SeqToCapture(consumed, src), leaf);
      RunStep(pt, parent, pRest, pRestIdx, ts, src, k);
      ok := MatchSiblings(pt, parent, pRest, pRestIdx, ts[k..], src, caps);
      if ok {
        ghost var s := FindSibs(pt, parent, pRest, pRestIdx, ts[k..], src).value;
        ghost var tr := SibsTrace(pt, parent, pRest, pRestIdx, ts[k..], src, s);
        ghost var dr := SibsDropped(pt, parent, pRest, pRestIdx, ts[k..], src, s);
        if ClearAll(pt, pRest) {
          RecordedThen(before, bound, caps.Snap(), Bind(ph.name, SeqToCapture(consumed, src), leaf), [], tr, dr);
          assert [] + dr == dr;
          SibsNames(pt, parent, pRest, pRestIdx, ts[k..], src, s);
          TraceAppend(Bind(ph.name, SeqToCapture(consumed, src), leaf), tr);
          RecordedForgets(start, before, caps.Snap(), names, Bind(ph.name, SeqToCapture(consumed, src), leaf) + tr, dr);
        }
        return;
      }
      ghost var failed := caps.Snap();
      caps.RestoreBinding(ph.name, saved);
      caps.Rollback(mark, dmark, cmark);
      if ClearAll(pt, pRest) {
        RestoredAgrees(start, before, bound, failed, caps.Snap(), ph.name, saved, SeqToCapture(consumed, src), names);
      }
      RestoredExactly(start.byName, before.byName, failed.byName, caps.Snap().byName, ph.name, saved);
      k := k - 1;
    }
    ok := false;
  }

  lemma BindRecorded(a: Records, b: Records, name: bytes, cap: Capture, pat: Range)
    requires b == a.(byName := if name == [] then a.byName else a.byName[name := cap])
    ensures Recorded(a, b, Bind(name, cap, pat), [])
  {
    if name != [] {
      assert Bind(name, cap, pat)[1..] == [];
    }
  }

  /** Restoring one binding and three lengths leaves nothing of the failed try but bindings of names
      the rest of the pattern binds anyway. */
  lemma RestoredAgrees(start: Records, before: Records, bound: Records, failed: Records, after: Records,
          name: bytes, saved: Option<Capture>, cap: Capture, names: seq<bytes>)
    requires RolledBack(start, before, names)
    requires bound == before.(byName := if name == [] then before.byName else before.byName[name := cap])
    requires Abandoned(bound, failed, names)
    requires saved == if name != [] && name in before.byName then Some(before.byName[name]) else None
    requires after.byName == if name == [] then failed.byName
                             else if saved.None? then failed.byName - {name} else failed.byName[name := saved.value]
    requires after.aligns == if |before.aligns| <= |failed.aligns| then failed.aligns[..|before.aligns|] else failed.aligns
    requires after.dropped == if |before.dropped| <= |failed.dropped| then failed.dropped[..|before.dropped|] else failed.dropped
    requires after.comments == if |before.comments| <= |failed.comments| then failed.comments[..|before.comments|] else failed.comments
    ensures RolledBack(start, after, names)
  {
    forall n | n !in names ensures SameAt(start.byName, after.byName, n) {
      assert SameAt(start.byName, before.byName, n);
      assert SameAt(bound.byName, failed.byName, n);
    }
  }

  lemma SameAsItself(m: map<bytes, Capture>, name: bytes)
    ensures SameAt(m, m, name)
  {
  }

  /** The sequence's own name carries again exactly what it carried. */
  lemma RestoredExactly(start: map<bytes, Capture>, before: map<bytes, Capture>, failed: map<bytes, Capture>,
          after: map<bytes, Capture>, name: bytes, saved: Option<Capture>)
    requires name != [] ==> SameAt(start, before, name)
    requires saved == if name != [] && name in before then Some(before[name]) else None
    requires after == if name == [] then failed else if saved.None? then failed - {name} else failed[name := saved.value]
    ensures name != [] ==> SameAt(start, after, name)
  {
  }

  lemma RunStep(pt: PatternTree, parent: Node, rest: seq<Node>, idx: nat, ts: seq<Node>, src: bytes, k: nat)
    requires k <= |ts|
    ensures var here := FindSibs(pt, parent, rest, idx, ts[k..], src);
            FindRun(pt, parent, rest, idx, ts, src, k)
            == if here.Some? then Some(Run(k, here.value))
               else if k == 0 then None else FindRun(pt, parent, rest, idx, ts, src, k - 1)
  {
    hide FindSibs, FindNode;
  }

  lemma EmptyStep(pt: PatternTree, parent: Node, ps: seq<Node>, idx: nat, ts: seq<Node>, src: bytes)
    requires ps == []
    ensures FindSibs(pt, parent, ps, idx, ts, src)
            == if AllIgnorable(ts, pt.cfg.commentKinds) then Some(Done) else None
    ensures AllIgnorable(ts, pt.cfg.commentKinds) ==>
            && SibsHold(pt, parent, ps, idx, ts, src, Done)
            && SibsTrace(pt, parent, ps, idx, ts, src, Done) == SkippedAll(ts)
            && SibsDropped(pt, parent, ps, idx, ts, src, Done) == []
  {
    hide FindRun, FindNode, SkippedAll, AllIgnorable;
  }

  lemma OnlyPromotesStep(pt: PatternTree, parent: Node, ps: seq<Node>, idx: nat, ts: seq<Node>, src: bytes)
    requires ps != [] && OnlyPromotes(pt, ps[0])
    requires FindRun(pt, parent, ps[1..], idx + 1, ts, src, |ts|).None?
    ensures FindSibs(pt, parent, ps, idx, ts, src).None?
  {
    hide FindRun, FindNode;
  }

  lemma PositionKinds(pt: PatternTree, parent: Node, idx: nat, p: Node, ts: seq<Node>, chain: Option<Chain>)
    requires chain == SeqChain(pt, p)
    ensures Promotable(pt, parent, idx, p, ts)
       <==> chain.Some? && Promotes(chain.value, parent, idx, if |ts| > 0 then Some(ts[0]) else None)
    ensures OnlyPromotes(pt, p) <==> chain.Some? && chain.value.depth == 0
    ensures OnlyPromotes(pt, p) ==> Promotable(pt, parent, idx, p, ts)
  {
  }
}
