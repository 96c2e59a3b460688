/**
 Every derivation of a pattern binds the same names, in the order the placeholders stand in the
 pattern. This is why rolling back a sequence's own binding is enough: whatever other names an
 abandoned try left behind are bound again by the derivation that survives.
 */
module PatternNames {
  import opened Bytes
  import opened Outcomes
  import opened SyntaxTree
  import opened MatchRecords
  import opened Derivations

  /** The name a node binds by itself. */
  function OwnName(pt: PatternTree, n: Node): seq<bytes> {
    if IsPlaceholder(pt, n) && !Lookup(pt, n).value.kind.KindNodeWild? && Lookup(pt, n).value.name != []
    then [Lookup(pt, n).value.name]
    else []
  }

  /** Every placeholder name in the subtree, in pattern order, repeats kept. */
  function AllNames(pt: PatternTree, n: Node): seq<bytes>
    decreases n
  {
    OwnName(pt, n) + AllNamesOf(pt, n.children)
  }

  function AllNamesOf(pt: PatternTree, ns: seq<Node>): seq<bytes>
    decreases ns
  {
    if ns == [] then [] else AllNames(pt, ns[0]) + AllNamesOf(pt, ns[1..])
  }

  /** What a compiled pattern guarantees: anonymous nodes are leaves and never placeholders, and no
      placeholder lies strictly inside a node whose text is compared whole. */
  predicate Clear(pt: PatternTree, n: Node)
    decreases n
  {
    && (n.named || (n.children == [] && Lookup(pt, n).None?))
    && (IsOpaque(pt, n.kind) && Reading(pt, n) == n && !IsPlaceholder(pt, n) ==> AllNamesOf(pt, n.children) == [])
    && ClearAll(pt, n.children)
  }

  predicate ClearAll(pt: PatternTree, ns: seq<Node>)
    decreases ns
  {
    ns == [] || (Clear(pt, ns[0]) && ClearAll(pt, ns[1..]))
  }

  lemma {:induction false} ClearMember(pt: PatternTree, ns: seq<Node>, c: Node)
    requires ClearAll(pt, ns) && c in ns
    ensures Clear(pt, c)
  {
    if ns[0] != c {
      ClearMember(pt, ns[1..], c);
    }
  }

  lemma Silent(pt: PatternTree, n: Node)
    requires Clear(pt, n) && !n.named
    ensures AllNames(pt, n) == []
  {
  }

  lemma {:induction false} NamedOnlyNames(pt: PatternTree, ns: seq<Node>)
    requires ClearAll(pt, ns)
    ensures AllNamesOf(pt, NamedOnly(ns)) == AllNamesOf(pt, ns)
  {
    if ns != [] {
      NamedOnlyNames(pt, ns[1..]);
      if ns[0].named {
        assert NamedOnly(ns)[1..] == NamedOnly(ns[1..]);
      } else {
        Silent(pt, ns[0]);
        assert NamedOnly(ns) == NamedOnly(ns[1..]);
      }
    }
  }

  lemma {:induction false} WithoutLayoutNames(pt: PatternTree, ns: seq<Node>, src: bytes, layout: seq<bytes>)
    requires ClearAll(pt, ns)
    ensures AllNamesOf(pt, WithoutLayout(ns, src, layout)) == AllNamesOf(pt, ns)
    ensures ClearAll(pt, WithoutLayout(ns, src, layout))
  {
    if ns != [] {
      WithoutLayoutNames(pt, ns[1..], src, layout);
      if !IsLayoutToken(ns[0], src, layout) {
        assert WithoutLayout(ns, src, layout)[1..] == WithoutLayout(ns[1..], src, layout);
      } else {
        Silent(pt, ns[0]);
      }
    }
  }

  lemma SoleNamedChildNames(pt: PatternTree, n: Node, c: Node)
    requires Clear(pt, n) && NamedOnly(n.children) == [c]
    ensures AllNames(pt, n) == AllNames(pt, c) && Clear(pt, c)
  {
    ClearKids(pt, n);
    hide Clear, ClearAll, AllNames, AllNamesOf, NamedOnly;
    assert c in NamedOnly(n.children);
    ClearMember(pt, n.children, c);
    NamedOnlyNames(pt, n.children);
    NamesOfOne(pt, c);
    ParentNames(pt, n);
  }

  lemma ClearKids(pt: PatternTree, n: Node)
    requires Clear(pt, n)
    ensures ClearAll(pt, n.children)
  {
  }

  lemma NamesOfOne(pt: PatternTree, c: Node)
    ensures AllNamesOf(pt, [c]) == AllNames(pt, c)
  {
    hide AllNames;
    assert AllNamesOf(pt, [c]) == AllNames(pt, c) + AllNamesOf(pt, [c][1..]);
  }

  /** A node with a named child is no placeholder itself. */
  lemma ParentNames(pt: PatternTree, n: Node)
    requires NamedOnly(n.children) != []
    ensures AllNames(pt, n) == AllNamesOf(pt, n.children)
  {
    hide AllNamesOf, NamedOnly;
  }

  lemma {:induction false} EffectiveNames(pt: PatternTree, n: Node)
    requires Clear(pt, n)
    ensures Clear(pt, Effective(n)) && AllNames(pt, Effective(n)) == AllNames(pt, n)
    decreases n
  {
    match SameSpanChild(n)
    case None =>
    case Some(c) =>
      SoleNamedChildNames(pt, n, c);
      EffectiveNames(pt, c);
  }

  lemma {:induction false} ChainNames(pt: PatternTree, top: Node, cur: Node, depth: nat)
    requires Clear(pt, cur) && ChainFrom(pt, top, cur, depth).Some?
    ensures var name := ChainFrom(pt, top, cur, depth).value.ph.name;
            AllNames(pt, cur) == if name == [] then [] else [name]
    decreases cur
  {
    hide AllNames, Clear, NamedOnly;
    match Lookup(pt, cur)
    case Some(ph) =>
      PlaceholderNamesItself(pt, cur);
    case None =>
      var named := NamedOnly(cur.children);
      assert named[0] in named;
      assert named == [named[0]];
      SoleNamedChildNames(pt, cur, named[0]);
      ChainNames(pt, top, named[0], depth + 1);
  }

  /** A sequence placeholder carries its own name and no other. */
  lemma PlaceholderNamesItself(pt: PatternTree, n: Node)
    requires Clear(pt, n) && Lookup(pt, n).Some? && Lookup(pt, n).value.IsSeq()
    ensures var name := Lookup(pt, n).value.name; AllNames(pt, n) == if name == [] then [] else [name]
  {
    ClearKids(pt, n);
    hide Clear, ClearAll, NamedOnly;
    NamedOnlyNames(pt, n.children);
  }

  /** Reading a node changes neither its names nor what the compile guaranteed. */
  lemma ReadingNames(pt: PatternTree, p: Node)
    requires Clear(pt, p)
    ensures var q := Reading(pt, p); Clear(pt, q) && AllNames(pt, q) == AllNames(pt, p)
    ensures var q := Reading(pt, p); IsOpaque(pt, q.kind) && !IsPlaceholder(pt, q) ==> AllNames(pt, q) == []
  {
    var q := Reading(pt, p);
    EffectiveNames(pt, p);
    if q != p {
      EffectiveIdempotent(p);
      assert Reading(pt, q) == q;
    }
  }

  lemma {:induction false} EffectiveIdempotent(n: Node)
    ensures Effective(Effective(n)) == Effective(n)
    decreases n
  {
    match SameSpanChild(n)
    case None =>
    case Some(c) => EffectiveIdempotent(c);
  }

  lemma BindNames(name: bytes, cap: Capture, pat: Range)
    ensures NamesOf(Bind(name, cap, pat)) == if name == [] then [] else [name]
  {
  }

  lemma {:induction false} SibsNames(pt: PatternTree, parent: Node, ps: seq<Node>, idx: nat, ts: seq<Node>,
          src: bytes, s: Sibs)
    requires ClearAll(pt, ps) && SibsHold(pt, parent, ps, idx, ts, src, s)
    ensures NamesOf(SibsTrace(pt, parent, ps, idx, ts, src, s)) == AllNamesOf(pt, ps)
    decreases s
  {
    hide NodeHolds, NodeTrace, Clear, AllNames, LeadComments, SkippedAll, NamesOf, Promotes;
    match s
    case Done =>
      SkippedAllRecords(ts);
    case Run(k, rest) =>
      var chain := SeqChain(pt, ps[0]).value;
      ChainNames(pt, ps[0], ps[0], 0);
      SibsNames(pt, parent, ps[1..], idx + 1, ts[k..], src, rest);
      BindNames(chain.ph.name, SeqToCapture(ts[..k], src), chain.leaf);
      TraceAppend(Bind(chain.ph.name, SeqToCapture(ts[..k], src), chain.leaf),
                  SibsTrace(pt, parent, ps[1..], idx + 1, ts[k..], src, rest));
    case One(head, tail) =>
      var c := LeadComments(ts, pt.cfg.commentKinds);
      SkippedAllRecords(ts[..c]);
      NodeNames(pt, ps[0], ts[c], src, head);
      SibsNames(pt, parent, ps[1..], idx + 1, ts[c + 1..], src, tail);
      var here := NodeTrace(pt, ps[0], ts[c], src, head);
      TraceAppend(SkippedAll(ts[..c]), here);
      TraceAppend(SkippedAll(ts[..c]) + here, SibsTrace(pt, parent, ps[1..], idx + 1, ts[c + 1..], src, tail));
  }

  lemma PlaceholderNames(pt: PatternTree, q: Node, t: Node, src: bytes)
    requires Clear(pt, q) && IsPlaceholder(pt, q)
    ensures NamesOf(PlaceholderTrace(Lookup(pt, q).value, q, t, src)) == AllNames(pt, q)
  {
    hide Bind, NamesOf, Effective, Reading, SeqToCapture;
    NamedOnlyNames(pt, q.children);
    var ph, pat := Lookup(pt, q).value, Range(q.start, q.end);
    BindNames(ph.name, NodeToCapture(Effective(t), src), pat);
    BindNames(ph.name, SeqToCapture([Effective(t)], src), pat);
    BindNames([], NodeToCapture(t, src), pat);
    assert NamesOf([]) == [] by { SkippedAllRecords([]); }
  }

  /** The names a derivation binds are the pattern's placeholder names, in pattern order. */
  lemma {:induction false} NodeNames(pt: PatternTree, p: Node, t: Node, src: bytes, d: Deriv)
    requires Clear(pt, p) && NodeHolds(pt, p, t, src, d)
    ensures NamesOf(NodeTrace(pt, p, t, src, d)) == AllNames(pt, p)
    decreases d
  {
    hide SibsHold, SibsTrace, Clear, ClearAll, Reading, WithoutLayout, PlaceholderTrace, Lookup, AllNamesOf;
    var q, u := Reading(pt, p), Facing(pt, p, t);
    ReadingNames(pt, p);
    if IsPlaceholder(pt, q) {
      PlaceholderNames(pt, q, t, src);
    } else if d.Kids? {
      hide NamesOf;
      KidsNames(pt, q);
      SibsNames(pt, q, PatternKids(pt, q), 0, TargetKids(pt, u, src), src, d.sibs);
    } else if !IsOpaque(pt, q.kind) {
      LeafNames(pt, q);
    }
  }

  lemma LeafNames(pt: PatternTree, q: Node)
    requires !IsPlaceholder(pt, q) && q.children == []
    ensures AllNames(pt, q) == []
  {
  }

  /** The children a node is aligned by carry exactly its names. */
  lemma KidsNames(pt: PatternTree, q: Node)
    requires Clear(pt, q) && !IsPlaceholder(pt, q)
    ensures ClearAll(pt, PatternKids(pt, q)) && AllNamesOf(pt, PatternKids(pt, q)) == AllNames(pt, q)
  {
    hide WithoutLayout;
    WithoutLayoutNames(pt, q.children, pt.source, pt.cfg.layoutTokens);
  }
}
