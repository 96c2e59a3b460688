/**
 Parse trees, compiled patterns and the pure readings the matcher takes of them.

 A node carries its kind, whether it is named, its byte range, its start row, the field name its
 parent gives it ("" when none) and its ordered children. Trees are values: nothing here mutates one.
 */
module SyntaxTree {
  import opened Bytes
  import opened Outcomes

  datatype Node = Node(kind: string, named: bool, start: nat, end: nat, row: nat, field: string,
                       children: seq<Node>)

  datatype Range = Range(start: nat, end: nat)

  datatype PlaceholderKind = KindNode | KindNodeWild | KindSeq | KindSeqWild | KindLiteralDollar

  /** One placeholder of the pattern; `name` is empty for a wildcard. */
  datatype Placeholder = Placeholder(name: bytes, kind: PlaceholderKind) {
    predicate IsSeq() { kind.KindSeq? || kind.KindSeqWild? }
    predicate Binds() { !kind.KindLiteralDollar? }
  }

  /** The grammar's declarations the matcher consults. */
  datatype LangConfig = LangConfig(layoutTokens: seq<bytes>, commentKinds: seq<string>,
                                   opaqueKinds: seq<string>, trimsAnonTokens: bool)

  datatype PatternTree = PatternTree(root: Node, source: bytes, placeholders: map<Range, Placeholder>,
                                     cfg: LangConfig, hasSeq: bool)

  /** The node's own source text. */
  function Text(n: Node, src: bytes): bytes {
    Slice(src, n.start, n.end)
  }

  // ----- shape -----

  /** The siblings are well formed, in order, disjoint, and inside [lo, hi). */
  predicate Siblings(ns: seq<Node>, lo: nat, hi: nat)
    decreases ns
  {
    && lo <= hi
    && (ns == [] ||
        (lo <= ns[0].start && ns[0].end <= hi && WellFormed(ns[0]) && Siblings(ns[1..], ns[0].end, hi)))
  }

  predicate WellFormed(n: Node)
    decreases n
  {
    n.start <= n.end && Siblings(n.children, n.start, n.end)
  }

  /** Node count: what matching consumes on the pattern side. */
  function Size(n: Node): (r: nat)
    ensures r >= 1
    decreases n
  {
    1 + SizeAll(n.children)
  }

  function SizeAll(ns: seq<Node>): nat
    decreases ns
  {
    if ns == [] then 0 else Size(ns[0]) + SizeAll(ns[1..])
  }

  function NamedOnly(ns: seq<Node>): (r: seq<Node>)
    ensures |r| <= |ns|
    ensures forall c | c in r :: c in ns && c.named
  {
    if ns == [] then [] else (if ns[0].named then [ns[0]] else []) + NamedOnly(ns[1..])
  }

  lemma {:induction false} MemberIsSmaller(c: Node, ns: seq<Node>)
    requires c in ns
    ensures Size(c) <= SizeAll(ns)
  {
    if ns[0] != c {
      MemberIsSmaller(c, ns[1..]);
    }
  }

  // ----- wrapper descent -----

  /** The single named child when it shares its parent's byte range. */
  function SameSpanChild(n: Node): (r: Option<Node>)
    ensures r.Some? ==> r.value in n.children && r.value.start == n.start && r.value.end == n.end
    ensures r.Some? ==> NamedOnly(n.children) == [r.value]
  {
    var named := NamedOnly(n.children);
    if |named| == 1 && named[0].start == n.start && named[0].end == n.end then Some(named[0]) else None
  }

  /** Descends through single-named-child wrappers that share the node's byte range. */
  function Effective(n: Node): (r: Node)
    ensures Size(r) <= Size(n) && r.start == n.start && r.end == n.end
    decreases n
  {
    match SameSpanChild(n)
    case None => n
    case Some(c) => MemberIsSmaller(c, n.children); Effective(c)
  }

  method EffectiveNode(n: Node) returns (cur: Node)
    ensures cur == Effective(n)
  {
    cur := n;
    while |NamedOnly(cur.children)| == 1
      invariant Effective(cur) == Effective(n)
      decreases Size(cur)
    {
      var child := NamedOnly(cur.children)[0];
      if child.start != cur.start || child.end != cur.end {
        break;
      }
      MemberIsSmaller(child, cur.children);
      cur := child;
    }
  }

  lemma {:induction false} EffectiveWellFormed(n: Node)
    requires WellFormed(n)
    ensures WellFormed(Effective(n))
    decreases n
  {
    match SameSpanChild(n)
    case None =>
    case Some(c) =>
      SiblingsAt(n.children, n.start, n.end, c);
      EffectiveWellFormed(c);
  }

  lemma {:induction false} SiblingsAt(ns: seq<Node>, lo: nat, hi: nat, c: Node)
    requires Siblings(ns, lo, hi) && c in ns
    ensures WellFormed(c) && lo <= c.start && c.end <= hi
  {
    if ns[0] != c {
      SiblingsAt(ns[1..], ns[0].end, hi, c);
    }
  }

  lemma {:induction false} SiblingsWiden(ns: seq<Node>, lo: nat, hi: nat, lo': nat, hi': nat)
    requires Siblings(ns, lo, hi) && lo' <= lo && hi <= hi'
    ensures Siblings(ns, lo', hi')
  {
    if ns != [] {
      SiblingsWiden(ns[1..], ns[0].end, hi, ns[0].end, hi');
    }
  }

  /** Splitting a sibling run: what precedes `k` ends before what follows begins. */
  lemma {:induction false} SiblingsSplit(ns: seq<Node>, lo: nat, hi: nat, k: nat) returns (mid: nat)
    requires Siblings(ns, lo, hi) && k <= |ns|
    ensures lo <= mid <= hi && Siblings(ns[..k], lo, mid) && Siblings(ns[k..], mid, hi)
    ensures mid == if k == 0 then lo else ns[k - 1].end
  {
    if k == 0 {
      assert ns[k..] == ns;
      mid := lo;
    } else {
      mid := SiblingsSplit(ns[1..], ns[0].end, hi, k - 1);
      assert ns[..k][1..] == ns[1..][..k - 1];
      assert ns[k..] == ns[1..][k - 1..];
      SiblingsFit(ns[1..], ns[0].end, hi, k - 1);
    }
  }

  lemma {:induction false} SiblingsFit(ns: seq<Node>, lo: nat, hi: nat, k: nat)
    requires Siblings(ns, lo, hi) && k <= |ns|
    ensures k > 0 ==> lo <= ns[0].start <= ns[k - 1].end <= hi
    ensures k > 0 ==> lo <= ns[k - 1].start <= ns[k - 1].end <= hi
    ensures forall i | 0 <= i < |ns| :: WellFormed(ns[i])
  {
    if ns != [] {
      if k > 0 {
        SiblingsFit(ns[1..], ns[0].end, hi, k - 1);
      } else {
        SiblingsFit(ns[1..], ns[0].end, hi, 0);
      }
      forall i | 0 <= i < |ns| ensures WellFormed(ns[i]) {
        if i > 0 { assert ns[i] == ns[1..][i - 1]; }
      }
    }
  }

  // ----- children -----

  /** An anonymous token whose text the grammar declared pure layout. */
  predicate IsLayoutToken(c: Node, src: bytes, layout: seq<bytes>) {
    !c.named && c.children == [] && Text(c, src) in layout
  }

  /** A named node of a declared comment kind. */
  predicate IsIgnorableComment(c: Node, comments: seq<string>) {
    c.named && c.kind in comments
  }

  /** Every child in order, layout tokens dropped. */
  function WithoutLayout(ns: seq<Node>, src: bytes, layout: seq<bytes>): (r: seq<Node>)
    ensures SizeAll(r) <= SizeAll(ns) && |r| <= |ns|
    ensures forall c | c in r :: c in ns
  {
    if ns == [] then []
    else
      var rest := WithoutLayout(ns[1..], src, layout);
      if IsLayoutToken(ns[0], src, layout) then rest else assert ([ns[0]] + rest)[1..] == rest; [ns[0]] + rest
  }

  lemma WithoutLayoutAppend(ns: seq<Node>, c: Node, src: bytes, layout: seq<bytes>)
    ensures WithoutLayout(ns + [c], src, layout)
         == WithoutLayout(ns, src, layout) + (if IsLayoutToken(c, src, layout) then [] else [c])
  {
    if ns == [] {
      assert [] + [c] == [c];
    } else {
      assert (ns + [c])[1..] == ns[1..] + [c];
      WithoutLayoutAppend(ns[1..], c, src, layout);
    }
  }

  method AllChildren(n: Node, src: bytes, layout: seq<bytes>) returns (out: seq<Node>)
    ensures out == WithoutLayout(n.children, src, layout)
  {
    out := [];
    for i := 0 to |n.children|
      invariant out == WithoutLayout(n.children[..i], src, layout)
    {
      var c := n.children[i];
      assert n.children[..i + 1] == n.children[..i] + [c];
      WithoutLayoutAppend(n.children[..i], c, src, layout);
      if |layout| > 0 && IsLayoutToken(c, src, layout) {
        continue;
      }
      out := out + [c];
    }
    assert n.children[..|n.children|] == n.children;
  }

  lemma {:induction false} WithoutLayoutSiblings(ns: seq<Node>, lo: nat, hi: nat, src: bytes, layout: seq<bytes>)
    requires Siblings(ns, lo, hi)
    ensures Siblings(WithoutLayout(ns, src, layout), lo, hi)
  {
    if ns != [] {
      WithoutLayoutSiblings(ns[1..], ns[0].end, hi, src, layout);
      if IsLayoutToken(ns[0], src, layout) {
        SiblingsWiden(WithoutLayout(ns[1..], src, layout), ns[0].end, hi, lo, hi);
      } else {
        var r := WithoutLayout(ns, src, layout);
        assert r[1..] == WithoutLayout(ns[1..], src, layout);
      }
    }
  }

  /** The field name the grammar gives the parent's child number `idx`. */
  function FieldNameForChild(parent: Node, idx: nat): string {
    if idx < |parent.children| then parent.children[idx].field else ""
  }

  // ----- placeholders and sequence chains -----

  /** The placeholder at the node's byte range; only a node without named children is one. */
  function Lookup(pt: PatternTree, p: Node): Option<Placeholder> {
    if NamedOnly(p.children) == [] && Range(p.start, p.end) in pt.placeholders
    then Some(pt.placeholders[Range(p.start, p.end)])
    else None
  }

  /** A pattern child that reaches a sequence placeholder through single-named-child wrappers. */
  datatype Chain = Chain(ph: Placeholder, kind: string, depth: nat, leaf: Range, leadAligned: bool)

  function ChainFrom(pt: PatternTree, top: Node, cur: Node, depth: nat): (r: Option<Chain>)
    decreases cur
  {
    match Lookup(pt, cur)
    case Some(ph) =>
      if ph.IsSeq()
      then Some(Chain(ph, top.kind, depth, Range(cur.start, cur.end), top.start == cur.start))
      else None
    case None =>
      var named := NamedOnly(cur.children);
      if |named| != 1 then None else assert named[0] in named; ChainFrom(pt, top, named[0], depth + 1)
  }

  function SeqChain(pt: PatternTree, p: Node): Option<Chain> {
    if pt.hasSeq then ChainFrom(pt, p, p, 0) else None
  }

  method FindSeqChain(pt: PatternTree, p: Node) returns (r: Option<Chain>)
    ensures r == SeqChain(pt, p)
  {
    if !pt.hasSeq {
      return None;
    }
    var cur, depth := p, 0;
    while true
      invariant ChainFrom(pt, p, cur, depth) == ChainFrom(pt, p, p, 0)
      decreases Size(cur)
    {
      var found := Lookup(pt, cur);
      if found.Some? {
        if !found.value.IsSeq() {
          return None;
        }
        return Some(Chain(found.value, p.kind, depth, Range(cur.start, cur.end), p.start == cur.start));
      }
      var named := NamedOnly(cur.children);
      if |named| != 1 {
        return None;
      }
      MemberIsSmaller(named[0], cur.children);
      cur, depth := named[0], depth + 1;
    }
  }

  /** Whether the chain's top node is dropped so that the placeholder takes its target siblings. */
  predicate Promotes(c: Chain, parent: Node, idx: nat, tHead: Option<Node>) {
    if c.depth == 0 then true
    else if !c.leadAligned then false
    else if tHead.None? || tHead.value.kind != c.kind then true
    else FieldNameForChild(parent, idx) == ""
  }

  lemma {:induction false} ChainLeafInside(pt: PatternTree, top: Node, cur: Node, depth: nat)
    requires WellFormed(cur) && ChainFrom(pt, top, cur, depth).Some?
    ensures var c := ChainFrom(pt, top, cur, depth).value;
            cur.start <= c.leaf.start <= c.leaf.end <= cur.end
    decreases cur
  {
    if Lookup(pt, cur).None? {
      var child := NamedOnly(cur.children)[0];
      SiblingsAt(cur.children, cur.start, cur.end, child);
      ChainLeafInside(pt, top, child, depth + 1);
    }
  }

  // ----- how the matcher reads a pattern node and the target node facing it -----

  /** Wrappers are stripped from a pattern node unless it chains down to a sequence placeholder. */
  function Reading(pt: PatternTree, p: Node): (q: Node)
    ensures Size(q) <= Size(p)
  {
    if SeqChain(pt, p).Some? then p else Effective(p)
  }

  /** The target descends exactly when the pattern did. */
  function Facing(pt: PatternTree, p: Node, t: Node): Node {
    if Reading(pt, p) != p then Effective(t) else t
  }

  /** A placeholder that accepts any target node on its own. */
  predicate IsPlaceholder(pt: PatternTree, q: Node) {
    Lookup(pt, q).Some? && Lookup(pt, q).value.Binds()
  }
}
