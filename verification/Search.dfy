/**
 The search the matcher runs, as functions: longest run first, the ordinary reading only when no
 promotion aligns. It is sound and complete for `NodeHolds`, and the derivation it finds is the one
 greedy derivation.
 */
module GreedySearch {
  import opened Bytes
  import opened Outcomes
  import opened SyntaxTree
  import opened TokenText
  import opened Derivations

  function FindNode(pt: PatternTree, p: Node, t: Node, src: bytes): Option<Deriv>
    decreases Size(p), 1, 0
  {
    var q, u := Reading(pt, p), Facing(pt, p, t);
    if IsPlaceholder(pt, q) then Some(Leaf)
    else if q.kind != u.kind then None
    else if IsOpaque(pt, q.kind) then
      if Text(q, pt.source) == Text(u, src) then Some(Leaf) else None
    else if q.children == [] && u.children == [] then
      if TokenTextMatches(Text(q, pt.source), Text(u, src), TrimsToken(pt, q, u)) then Some(Leaf) else None
    else
      match FindSibs(pt, q, PatternKids(pt, q), 0, TargetKids(pt, u, src), src)
      case None => None
      case Some(s) => Some(Kids(s))
  }

  function FindSibs(pt: PatternTree, parent: Node, ps: seq<Node>, idx: nat, ts: seq<Node>, src: bytes)
    : Option<Sibs>
    decreases SizeAll(ps), 2, 0
  {
    if ps == [] then
      if AllIgnorable(ts, pt.cfg.commentKinds) then Some(Done) else None
    else
      var run := if Promotable(pt, parent, idx, ps[0], ts)
                 then FindRun(pt, parent, ps[1..], idx + 1, ts, src, |ts|) else None;
      if run.Some? then run
      else if OnlyPromotes(pt, ps[0]) then None
      else
        var c := LeadComments(ts, pt.cfg.commentKinds);
        if c == |ts| then None
        else
          match FindNode(pt, ps[0], ts[c], src)
          case None => None
          case Some(head) =>
            match FindSibs(pt, parent, ps[1..], idx + 1, ts[c + 1..], src)
            case None => None
            case Some(tail) => Some(One(head, tail))
  }

  /** The longest run of at most `k` siblings after which `rest` still aligns. */
  function FindRun(pt: PatternTree, parent: Node, rest: seq<Node>, idx: nat, ts: seq<Node>, src: bytes, k: nat)
    : (r: Option<Sibs>)
    requires k <= |ts|
    ensures r.Some? ==> r.value.Run? && r.value.k <= k
    ensures r.Some? ==> FindSibs(pt, parent, rest, idx, ts[r.value.k..], src) == Some(r.value.rest)
    decreases SizeAll(rest), 3, k
  {
    match FindSibs(pt, parent, rest, idx, ts[k..], src)
    case Some(s) => Some(Run(k, s))
    case None => if k == 0 then None else FindRun(pt, parent, rest, idx, ts, src, k - 1)
  }

  // ----- soundness and completeness -----

  lemma {:induction false} FindNodeSound(pt: PatternTree, p: Node, t: Node, src: bytes)
    requires FindNode(pt, p, t, src).Some?
    ensures NodeHolds(pt, p, t, src, FindNode(pt, p, t, src).value)
    decreases Size(p), 1
  {
    hide FindSibs, FindRun;
    var q, u := Reading(pt, p), Facing(pt, p, t);
    if FindNode(pt, p, t, src).value.Kids? {
      FindSibsSound(pt, q, PatternKids(pt, q), 0, TargetKids(pt, u, src), src);
    }
  }

  lemma {:induction false} FindSibsSound(pt: PatternTree, parent: Node, ps: seq<Node>, idx: nat,
          ts: seq<Node>, src: bytes)
    requires FindSibs(pt, parent, ps, idx, ts, src).Some?
    ensures SibsHold(pt, parent, ps, idx, ts, src, FindSibs(pt, parent, ps, idx, ts, src).value)
    decreases SizeAll(ps), 2
  {
    hide FindNode, FindRun, NodeHolds, Promotable, OnlyPromotes, LeadComments, AllIgnorable;
    match FindSibs(pt, parent, ps, idx, ts, src).value
    case Done =>
    case Run(k, _) =>
      FindSibsSound(pt, parent, ps[1..], idx + 1, ts[k..], src);
    case One(_, _) =>
      var c := LeadComments(ts, pt.cfg.commentKinds);
      FindNodeSound(pt, ps[0], ts[c], src);
      FindSibsSound(pt, parent, ps[1..], idx + 1, ts[c + 1..], src);
  }

  lemma {:induction false} FindNodeComplete(pt: PatternTree, p: Node, t: Node, src: bytes, d: Deriv)
    requires NodeHolds(pt, p, t, src, d)
    ensures FindNode(pt, p, t, src).Some?
    decreases d
  {
    hide FindSibs, FindRun;
    match d
    case Leaf =>
    case Kids(s) =>
      var q, u := Reading(pt, p), Facing(pt, p, t);
      FindSibsComplete(pt, q, PatternKids(pt, q), 0, TargetKids(pt, u, src), src, s);
  }

  lemma {:induction false} FindSibsComplete(pt: PatternTree, parent: Node, ps: seq<Node>, idx: nat,
          ts: seq<Node>, src: bytes, s: Sibs)
    requires SibsHold(pt, parent, ps, idx, ts, src, s)
    ensures FindSibs(pt, parent, ps, idx, ts, src).Some?
    decreases s
  {
    hide FindNode, FindRun, NodeHolds, Promotable, OnlyPromotes, LeadComments, AllIgnorable;
    match s
    case Done =>
    case Run(k, rest) =>
      FindSibsComplete(pt, parent, ps[1..], idx + 1, ts[k..], src, rest);
      FindRunReaches(pt, parent, ps[1..], idx + 1, ts, src, |ts|, k);
    case One(head, tail) =>
      var c := LeadComments(ts, pt.cfg.commentKinds);
      FindNodeComplete(pt, ps[0], ts[c], src, head);
      FindSibsComplete(pt, parent, ps[1..], idx + 1, ts[c + 1..], src, tail);
  }

  lemma {:induction false} FindRunReaches(pt: PatternTree, parent: Node, rest: seq<Node>, idx: nat,
          ts: seq<Node>, src: bytes, k: nat, goal: nat)
    requires goal <= k <= |ts| && FindSibs(pt, parent, rest, idx, ts[goal..], src).Some?
    ensures FindRun(pt, parent, rest, idx, ts, src, k).Some?
    decreases k
  {
    hide FindSibs, FindNode;
    if k > goal {
      FindRunReaches(pt, parent, rest, idx, ts, src, k - 1, goal);
    }
  }

  ghost predicate Derivable(pt: PatternTree, p: Node, t: Node, src: bytes) {
    exists d :: NodeHolds(pt, p, t, src, d)
  }

  /** A match is found exactly when a derivation exists. */
  lemma FindNodeIffDerivable(pt: PatternTree, p: Node, t: Node, src: bytes)
    ensures FindNode(pt, p, t, src).Some? <==> Derivable(pt, p, t, src)
  {
    hide FindNode;
    if FindNode(pt, p, t, src).Some? {
      FindNodeSound(pt, p, t, src);
    }
    if Derivable(pt, p, t, src) {
      var d :| NodeHolds(pt, p, t, src, d);
      FindNodeComplete(pt, p, t, src, d);
    }
  }

  // ----- greediness -----

  ghost predicate Alignable(pt: PatternTree, parent: Node, ps: seq<Node>, idx: nat, ts: seq<Node>, src: bytes) {
    exists s :: SibsHold(pt, parent, ps, idx, ts, src, s)
  }

  /** No run longer than `k` leaves the rest of the pattern alignable. */
  ghost predicate NoLongerRun(pt: PatternTree, parent: Node, rest: seq<Node>, idx: nat, ts: seq<Node>,
          src: bytes, k: int)
  {
    forall j {:trigger ts[j..]} | k < j <= |ts| && 0 <= j :: !Alignable(pt, parent, rest, idx, ts[j..], src)
  }

  /** Everywhere in the derivation: a promotion takes the longest run after which the rest still
      matches, and the ordinary reading is taken only where no run aligns. */
  ghost predicate NodeGreedy(pt: PatternTree, p: Node, t: Node, src: bytes, d: Deriv)
    requires NodeHolds(pt, p, t, src, d)
    decreases d
  {
    match d
    case Leaf => true
    case Kids(s) =>
      var q, u := Reading(pt, p), Facing(pt, p, t);
      SibsGreedy(pt, q, PatternKids(pt, q), 0, TargetKids(pt, u, src), src, s)
  }

  ghost predicate SibsGreedy(pt: PatternTree, parent: Node, ps: seq<Node>, idx: nat, ts: seq<Node>,
          src: bytes, s: Sibs)
    requires SibsHold(pt, parent, ps, idx, ts, src, s)
    decreases s
  {
    match s
    case Done => true
    case Run(k, rest) =>
      && NoLongerRun(pt, parent, ps[1..], idx + 1, ts, src, k)
      && SibsGreedy(pt, parent, ps[1..], idx + 1, ts[k..], src, rest)
    case One(head, tail) =>
      var c := LeadComments(ts, pt.cfg.commentKinds);
      && (Promotable(pt, parent, idx, ps[0], ts) ==> NoLongerRun(pt, parent, ps[1..], idx + 1, ts, src, -1))
      && NodeGreedy(pt, ps[0], ts[c], src, head)
      && SibsGreedy(pt, parent, ps[1..], idx + 1, ts[c + 1..], src, tail)
  }

  lemma {:induction false} FindNodeGreedy(pt: PatternTree, p: Node, t: Node, src: bytes)
    requires FindNode(pt, p, t, src).Some?
    ensures NodeHolds(pt, p, t, src, FindNode(pt, p, t, src).value)
    ensures NodeGreedy(pt, p, t, src, FindNode(pt, p, t, src).value)
    decreases Size(p), 1, 0
  {
    hide FindSibs, FindRun;
    FindNodeSound(pt, p, t, src);
    match FindNode(pt, p, t, src).value
    case Leaf =>
    case Kids(s) =>
      var q, u := Reading(pt, p), Facing(pt, p, t);
      FindSibsGreedy(pt, q, PatternKids(pt, q), 0, TargetKids(pt, u, src), src);
  }

  lemma {:induction false} FindSibsGreedy(pt: PatternTree, parent: Node, ps: seq<Node>, idx: nat,
          ts: seq<Node>, src: bytes)
    requires FindSibs(pt, parent, ps, idx, ts, src).Some?
    ensures SibsHold(pt, parent, ps, idx, ts, src, FindSibs(pt, parent, ps, idx, ts, src).value)
    ensures SibsGreedy(pt, parent, ps, idx, ts, src, FindSibs(pt, parent, ps, idx, ts, src).value)
    decreases SizeAll(ps), 2, 0
  {
    hide FindNode, FindRun, NodeHolds, NodeGreedy, Promotable, OnlyPromotes, LeadComments, Alignable, AllIgnorable;
    FindSibsSound(pt, parent, ps, idx, ts, src);
    if ps != [] {
      if Promotable(pt, parent, idx, ps[0], ts) {
        FindRunLongest(pt, parent, ps[1..], idx + 1, ts, src, |ts|);
      }
      match FindSibs(pt, parent, ps, idx, ts, src).value
      case Run(k, rest) =>
        FindSibsGreedy(pt, parent, ps[1..], idx + 1, ts[k..], src);
      case One(head, tail) =>
        var c := LeadComments(ts, pt.cfg.commentKinds);
        FindNodeGreedy(pt, ps[0], ts[c], src);
        FindSibsGreedy(pt, parent, ps[1..], idx + 1, ts[c + 1..], src);
    }
  }

  lemma {:induction false} FindRunLongest(pt: PatternTree, parent: Node, rest: seq<Node>, idx: nat,
          ts: seq<Node>, src: bytes, k: nat)
    requires k <= |ts| && NoLongerRun(pt, parent, rest, idx, ts, src, k)
    ensures var r := FindRun(pt, parent, rest, idx, ts, src, k);
            NoLongerRun(pt, parent, rest, idx, ts, src, if r.Some? then r.value.k else -1)
    decreases k
  {
    hide FindSibs, FindNode;
    if FindSibs(pt, parent, rest, idx, ts[k..], src).None? {
      forall s ensures !SibsHold(pt, parent, rest, idx, ts[k..], src, s) {
        if SibsHold(pt, parent, rest, idx, ts[k..], src, s) {
          FindSibsComplete(pt, parent, rest, idx, ts[k..], src, s);
        }
      }
      if k > 0 {
        FindRunLongest(pt, parent, rest, idx, ts, src, k - 1);
      }
    }
  }

  /** A greedy derivation is unique, so the search returns the greedy derivation. */
  lemma {:induction false} NodeGreedyUnique(pt: PatternTree, p: Node, t: Node, src: bytes, d: Deriv, e: Deriv)
    requires NodeHolds(pt, p, t, src, d) && NodeGreedy(pt, p, t, src, d)
    requires NodeHolds(pt, p, t, src, e) && NodeGreedy(pt, p, t, src, e)
    ensures d == e
    decreases d
  {
    if d.Kids? {
      var q, u := Reading(pt, p), Facing(pt, p, t);
      SibsGreedyUnique(pt, q, PatternKids(pt, q), 0, TargetKids(pt, u, src), src, d.sibs, e.sibs);
    }
  }

  lemma {:induction false} SibsGreedyUnique(pt: PatternTree, parent: Node, ps: seq<Node>, idx: nat,
          ts: seq<Node>, src: bytes, s: Sibs, r: Sibs)
    requires SibsHold(pt, parent, ps, idx, ts, src, s) && SibsGreedy(pt, parent, ps, idx, ts, src, s)
    requires SibsHold(pt, parent, ps, idx, ts, src, r) && SibsGreedy(pt, parent, ps, idx, ts, src, r)
    ensures s == r
    decreases s
  {
    hide Promotes, LeadComments, NodeHolds, NodeGreedy;
    if s.Run? {
      assert Alignable(pt, parent, ps[1..], idx + 1, ts[s.k..], src);
    }
    if r.Run? {
      assert Alignable(pt, parent, ps[1..], idx + 1, ts[r.k..], src);
    }
    match s
    case Done =>
    case Run(k, rest) =>
      SibsGreedyUnique(pt, parent, ps[1..], idx + 1, ts[k..], src, rest, r.rest);
    case One(head, tail) =>
      var c := LeadComments(ts, pt.cfg.commentKinds);
      NodeGreedyUnique(pt, ps[0], ts[c], src, head, r.head);
      SibsGreedyUnique(pt, parent, ps[1..], idx + 1, ts[c + 1..], src, tail, r.tail);
  }

  /** The search's answer, characterised without the search. */
  lemma FindNodeIsTheGreedyDerivation(pt: PatternTree, p: Node, t: Node, src: bytes, d: Deriv)
    ensures FindNode(pt, p, t, src) == Some(d)
       <==> NodeHolds(pt, p, t, src, d) && NodeGreedy(pt, p, t, src, d)
  {
    hide FindNode;
    if FindNode(pt, p, t, src).Some? {
      FindNodeSound(pt, p, t, src);
    }
    if NodeHolds(pt, p, t, src, d) && NodeGreedy(pt, p, t, src, d) {
      FindNodeComplete(pt, p, t, src, d);
      FindNodeGreedy(pt, p, t, src);
      NodeGreedyUnique(pt, p, t, src, d, FindNode(pt, p, t, src).value);
    } else if FindNode(pt, p, t, src).Some? {
      FindNodeGreedy(pt, p, t, src);
    }
  }
}
