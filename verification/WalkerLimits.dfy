/**
 Two places where the matcher does not do what its documentation says, each with the exact condition
 under which it does.
 */
module WalkerLimits {
  import opened Bytes
  import opened Outcomes
  import opened SyntaxTree
  import opened Derivations
  import opened GreedySearch

  // ----- the index a sequence position asks its field name with -----

  /** Where the i-th child that survives the layout drop stands among all children. */
  function RawIndex(ns: seq<Node>, src: bytes, layout: seq<bytes>, i: nat): (r: nat)
    requires i < |WithoutLayout(ns, src, layout)|
    ensures i <= r < |ns| && ns[r] == WithoutLayout(ns, src, layout)[i]
  {
    if IsLayoutToken(ns[0], src, layout) then RawIndex(ns[1..], src, layout, i) + 1
    else if i == 0 then 0
    else RawIndex(ns[1..], src, layout, i - 1) + 1
  }

  /** The walker counts positions in the list without layout tokens and uses the count as an index
      among ALL children. The two agree exactly when no layout token stands before the child. */
  lemma {:induction false} PositionIsRawIndexIff(ns: seq<Node>, src: bytes, layout: seq<bytes>, i: nat)
    requires i < |WithoutLayout(ns, src, layout)|
    ensures RawIndex(ns, src, layout, i) == i
       <==> forall j | 0 <= j <= i :: !IsLayoutToken(ns[j], src, layout)
  {
    hide IsLayoutToken;
    if i > 0 && !IsLayoutToken(ns[0], src, layout) {
      PositionIsRawIndexIff(ns[1..], src, layout, i - 1);
      Shifted(ns, src, layout, i);
    }
  }

  lemma Shifted(ns: seq<Node>, src: bytes, layout: seq<bytes>, i: nat)
    requires 0 < i < |ns| && !IsLayoutToken(ns[0], src, layout)
    ensures (forall j | 0 <= j <= i :: !IsLayoutToken(ns[j], src, layout))
       <==> (forall j | 0 <= j <= i - 1 :: !IsLayoutToken(ns[1..][j], src, layout))
  {
    hide IsLayoutToken;
    assert forall j | 0 <= j <= i - 1 :: ns[1..][j] == ns[j + 1];
    if forall j | 0 <= j <= i - 1 :: !IsLayoutToken(ns[1..][j], src, layout) {
      forall j | 0 <= j <= i ensures !IsLayoutToken(ns[j], src, layout) {
        if j > 0 { assert ns[j] == ns[1..][j - 1]; }
      }
    }
  }

  /** With a newline terminator in front of it, a field-named body slot is read as unnamed and promoted. The
      tree is made up: only Go declares a layout token (internal/ast/go_lang.go:98), a newline that ends
      statements, and its nodes carry no field name behind one, so no registered grammar reads a wrong name. */
  lemma LayoutShiftsTheFieldName()
    ensures
      var newline := Node("\n", false, 0, 1, 0, "", []);
      var body := Node("block", true, 1, 5, 1, "body", []);
      var parent := Node("def", true, 0, 5, 0, "", [newline, body]);
      var chain := Chain(Placeholder([0x42], KindSeq), "block", 1, Range(1, 5), true);
      && WithoutLayout(parent.children, [0x0A, 0x62, 0x6F, 0x64, 0x79], [[0x0A]]) == [body]
      && Promotes(chain, parent, 0, Some(body))
      && !Promotes(chain, parent, RawIndex(parent.children, [0x0A, 0x62, 0x6F, 0x64, 0x79], [[0x0A]], 0), Some(body))
  {
    var newline := Node("\n", false, 0, 1, 0, "", []);
    var body := Node("block", true, 1, 5, 1, "body", []);
    var src: bytes := [0x0A, 0x62, 0x6F, 0x64, 0x79];
    assert src[0..1] == [0x0A];
    assert IsLayoutToken(newline, src, [[0x0A]]);
    assert [newline, body][1..] == [body] && [body][1..] == [];
    assert WithoutLayout([body], src, [[0x0A]]) == [body];
  }

  // ----- a comment written into a pattern -----

  /** A pattern child that is a comment and nothing more: no placeholder, no wrapper to strip. */
  predicate IsPatternComment(pt: PatternTree, c: Node) {
    && IsIgnorableComment(c, pt.cfg.commentKinds)
    && SeqChain(pt, c).None? && SameSpanChild(c).None? && Lookup(pt, c).None?
  }

  /** Comment kinds are kinds of named nodes, as they are in every registered grammar. */
  predicate CommentsNamed(ts: seq<Node>, comments: seq<string>) {
    forall t | t in ts :: t.kind in comments ==> t.named
  }

  /** The ordinary path passes over every leading comment of the target before it compares, so a
      comment among the pattern's children faces no target comment and the siblings never align. */
  lemma {:induction false} PatternCommentNeverAligns(pt: PatternTree, parent: Node, ps: seq<Node>, idx: nat,
          ts: seq<Node>, src: bytes, s: Sibs, i: nat)
    requires i < |ps| && IsPatternComment(pt, ps[i]) && CommentsNamed(ts, pt.cfg.commentKinds)
    ensures !SibsHold(pt, parent, ps, idx, ts, src, s)
    decreases s
  {
    if SibsHold(pt, parent, ps, idx, ts, src, s) {
      match s
      case Done =>
      case Run(k, rest) =>
        if i > 0 {
          PatternCommentNeverAligns(pt, parent, ps[1..], idx + 1, ts[k..], src, rest, i - 1);
        }
      case One(head, tail) =>
        var c := LeadComments(ts, pt.cfg.commentKinds);
        if i > 0 {
          PatternCommentNeverAligns(pt, parent, ps[1..], idx + 1, ts[c + 1..], src, tail, i - 1);
        }
    }
  }

  /** Below the node the matcher descends to a comment: through ordinary children only, not into what is
      bound whole or compared as text. */
  ghost predicate CommentBelow(pt: PatternTree, p: Node)
    decreases Size(p)
  {
    var q := Reading(pt, p);
    && !IsPlaceholder(pt, q) && !IsOpaque(pt, q.kind)
    && exists c | c in PatternKids(pt, q) :: IsPatternComment(pt, c) || (SeqChain(pt, c).None? && DeeperComment(pt, q, c))
  }

  ghost predicate DeeperComment(pt: PatternTree, q: Node, c: Node)
    requires c in PatternKids(pt, q)
    decreases Size(q), 0
  {
    MemberIsSmaller(c, PatternKids(pt, q));
    CommentBelow(pt, c)
  }

  /** The target's nodes of comment kinds are named, at every depth. */
  predicate NamedComments(t: Node, comments: seq<string>)
    decreases t
  {
    (t.kind in comments ==> t.named) && forall i | 0 <= i < |t.children| :: NamedComments(t.children[i], comments)
  }

  lemma {:induction false} EffectiveNamed(t: Node, comments: seq<string>)
    requires NamedComments(t, comments)
    ensures NamedComments(Effective(t), comments)
    decreases Size(t)
  {
    match SameSpanChild(t)
    case None =>
    case Some(c) =>
      MemberIsSmaller(c, t.children);
      EffectiveNamed(c, comments);
  }

  predicate AllNamedComments(ts: seq<Node>, comments: seq<string>) {
    forall t | t in ts :: NamedComments(t, comments)
  }

  /** A pattern with a comment below its root matches no node at all. */
  lemma {:induction false} InnerCommentNeverMatches(pt: PatternTree, p: Node, t: Node, src: bytes, d: Deriv)
    requires CommentBelow(pt, p) && NamedComments(t, pt.cfg.commentKinds)
    ensures !NodeHolds(pt, p, t, src, d)
    decreases d, 1
  {
    hide SibsHold, IsPatternComment, Effective, NamedComments, SeqChain, WithoutLayout;
    if NodeHolds(pt, p, t, src, d) && d.Kids? {
      var q, u := Reading(pt, p), Facing(pt, p, t);
      EffectiveNamed(t, pt.cfg.commentKinds);
      ChildrenNamed(pt, u, src);
      var c :| c in PatternKids(pt, q) && (IsPatternComment(pt, c) || (SeqChain(pt, c).None? && DeeperComment(pt, q, c)));
      var i :| 0 <= i < |PatternKids(pt, q)| && PatternKids(pt, q)[i] == c;
      SiblingCommentNeverAligns(pt, q, PatternKids(pt, q), 0, TargetKids(pt, u, src), src, d.sibs, i);
    }
  }

  /** Such a pattern is derivable against no target. */
  lemma InnerCommentMatchesNothing(pt: PatternTree, t: Node, src: bytes)
    requires CommentBelow(pt, pt.root) && NamedComments(t, pt.cfg.commentKinds)
    ensures !Derivable(pt, pt.root, t, src)
  {
    hide CommentBelow, NamedComments, NodeHolds;
    forall d ensures !NodeHolds(pt, pt.root, t, src, d) {
      InnerCommentNeverMatches(pt, pt.root, t, src, d);
    }
  }

  lemma ChildrenNamed(pt: PatternTree, u: Node, src: bytes)
    requires NamedComments(u, pt.cfg.commentKinds)
    ensures AllNamedComments(TargetKids(pt, u, src), pt.cfg.commentKinds)
  {
  }

  lemma {:induction false} SiblingCommentNeverAligns(pt: PatternTree, parent: Node, ps: seq<Node>, idx: nat,
          ts: seq<Node>, src: bytes, s: Sibs, i: nat)
    requires i < |ps| && AllNamedComments(ts, pt.cfg.commentKinds)
    requires IsPatternComment(pt, ps[i]) || (SeqChain(pt, ps[i]).None? && CommentBelow(pt, ps[i]))
    ensures !SibsHold(pt, parent, ps, idx, ts, src, s)
    decreases s, 0
  {
    hide CommentBelow, NamedComments;
    if IsPatternComment(pt, ps[i]) {
      forall t | t in ts ensures t.kind in pt.cfg.commentKinds ==> t.named {
        NamedAtRoot(t, pt.cfg.commentKinds);
      }
      PatternCommentNeverAligns(pt, parent, ps, idx, ts, src, s, i);
    } else {
      NeverPromoted(pt, ps[i]);
      AllNamedRest(ts, pt.cfg.commentKinds);
      hide *;
      match s
      case Done =>
        DoneParts(pt, parent, ps, idx, ts, src);
      case Run(k, rest) =>
        RunParts(pt, parent, ps, idx, ts, src, k, rest);
        if i > 0 && k <= |ts| {
          SiblingCommentNeverAligns(pt, parent, ps[1..], idx + 1, ts[k..], src, rest, i - 1);
        }
      case One(head, tail) =>
        var c := LeadComments(ts, pt.cfg.commentKinds);
        OneParts(pt, parent, ps, idx, ts, src, head, tail);
        if c < |ts| && i > 0 {
          SiblingCommentNeverAligns(pt, parent, ps[1..], idx + 1, ts[c + 1..], src, tail, i - 1);
        } else if c < |ts| {
          InnerCommentNeverMatches(pt, ps[0], ts[c], src, head);
        }
    }
  }

  lemma DoneParts(pt: PatternTree, parent: Node, ps: seq<Node>, idx: nat, ts: seq<Node>, src: bytes)
    ensures SibsHold(pt, parent, ps, idx, ts, src, Done) ==> ps == []
  {
  }

  lemma RunParts(pt: PatternTree, parent: Node, ps: seq<Node>, idx: nat, ts: seq<Node>, src: bytes, k: nat, rest: Sibs)
    ensures SibsHold(pt, parent, ps, idx, ts, src, Run(k, rest)) ==>
              && ps != [] && Promotable(pt, parent, idx, ps[0], ts) && k <= |ts|
              && SibsHold(pt, parent, ps[1..], idx + 1, ts[k..], src, rest)
  {
    hide NodeHolds, Promotable;
  }

  lemma OneParts(pt: PatternTree, parent: Node, ps: seq<Node>, idx: nat, ts: seq<Node>, src: bytes, head: Deriv, tail: Sibs)
    ensures SibsHold(pt, parent, ps, idx, ts, src, One(head, tail)) ==>
              var c := LeadComments(ts, pt.cfg.commentKinds);
              && ps != [] && c < |ts| && NodeHolds(pt, ps[0], ts[c], src, head)
              && SibsHold(pt, parent, ps[1..], idx + 1, ts[c + 1..], src, tail)
  {
    hide NodeHolds, LeadComments, OnlyPromotes;
  }

  lemma NeverPromoted(pt: PatternTree, p: Node)
    requires SeqChain(pt, p).None?
    ensures forall parent, idx, ts: seq<Node> :: !Promotable(pt, parent, idx, p, ts)
  {
  }

  lemma AllNamedRest(ts: seq<Node>, comments: seq<string>)
    requires AllNamedComments(ts, comments)
    ensures forall k | 0 <= k <= |ts| :: AllNamedComments(ts[k..], comments)
    ensures forall k | 0 <= k < |ts| :: NamedComments(ts[k], comments)
  {
    hide NamedComments;
  }

  lemma NamedAtRoot(t: Node, comments: seq<string>)
    requires NamedComments(t, comments)
    ensures t.kind in comments ==> t.named
  {
  }

  /** At the pattern's root a comment is compared like any other leaf: it matches a comment of its
      kind with its text. */
  lemma RootCommentIsCompared(pt: PatternTree, c: Node, t: Node, src: bytes, d: Deriv)
    requires IsPatternComment(pt, c) && c.children == [] && t.children == []
    ensures NodeHolds(pt, c, t, src, d)
       <==> d.Leaf? && c.kind == t.kind && Text(c, pt.source) == Text(t, src)
  {
  }
}
