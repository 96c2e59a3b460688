/**
 Which node of a wrapped parse stands for the fragment the caller wrote. The wrapped source is prefix,
 fragment, suffix; the fragment occupies [lo, hi).
 */
module Hosting {
  import opened Outcomes
  import opened SyntaxTree

  /** The pattern root, its depth below the parse root, and the spans set aside on the way. */
  datatype Host = Host(root: Node, depth: nat, absorbed: seq<Range>, outOfSpan: seq<Range>)

  predicate Covers(n: Node, lo: nat, hi: nat) {
    n.start <= lo && hi <= n.end
  }

  // ----- the smallest covering node -----

  function FirstCovering(ns: seq<Node>, lo: nat, hi: nat): (r: Option<Node>)
    ensures r.Some? ==> r.value in ns && r.value.named && Covers(r.value, lo, hi)
    ensures r.None? ==> forall c | c in ns && c.named :: !Covers(c, lo, hi)
  {
    if ns == [] then None
    else if ns[0].named && Covers(ns[0], lo, hi) then Some(ns[0])
    else FirstCovering(ns[1..], lo, hi)
  }

  /** Descends through the named children as long as one covers the span. */
  function Smallest(n: Node, lo: nat, hi: nat, depth: nat): (r: Option<(Node, nat)>)
    ensures r.Some? <==> Covers(n, lo, hi)
    ensures r.Some? ==> Covers(r.value.0, lo, hi) && forall c | c in r.value.0.children && c.named :: !Covers(c, lo, hi)
    decreases n
  {
    if !Covers(n, lo, hi) then None
    else
      match FirstCovering(n.children, lo, hi)
      case Some(c) => Smallest(c, lo, hi, depth + 1)
      case None => Some((n, depth))
  }

  /** A named node below `n`, or `n` itself. */
  ghost predicate Below(n: Node, x: Node)
    decreases n
  {
    x == n || exists i | 0 <= i < |n.children| :: n.children[i].named && Below(n.children[i], x)
  }

  /** In a well-formed tree every named node covering a span of at least one byte has the one found below it. */
  lemma {:induction false} SmallestIsBelowAll(n: Node, lo: nat, hi: nat, depth: nat, x: Node)
    requires WellFormed(n) && lo < hi && Covers(n, lo, hi) && Below(n, x) && Covers(x, lo, hi)
    ensures Below(x, Smallest(n, lo, hi, depth).value.0)
    decreases n
  {
    hide Siblings;
    if x == n {
      SmallestIsBelow(n, lo, hi, depth);
    } else {
      var i :| 0 <= i < |n.children| && n.children[i].named && Below(n.children[i], x);
      BelowIsInside(n, i, x);
      var c := FirstCovering(n.children, lo, hi);
      OneCovers(n.children, n.start, n.end, lo, hi, i);
      SmallestIsBelowAll(n.children[i], lo, hi, depth + 1, x);
    }
  }

  lemma {:induction false} SmallestIsBelow(n: Node, lo: nat, hi: nat, depth: nat)
    requires Covers(n, lo, hi)
    ensures Below(n, Smallest(n, lo, hi, depth).value.0)
    decreases n
  {
    var c := FirstCovering(n.children, lo, hi);
    if c.Some? {
      SmallestIsBelow(c.value, lo, hi, depth + 1);
      var i :| 0 <= i < |n.children| && n.children[i] == c.value;
      assert n.children[i].named && Below(n.children[i], Smallest(n, lo, hi, depth).value.0);
    }
  }

  lemma {:induction false} BelowIsInside(n: Node, i: nat, x: Node)
    requires WellFormed(n) && i < |n.children| && Below(n.children[i], x)
    ensures WellFormed(n.children[i]) && n.children[i].start <= x.start && x.end <= n.children[i].end
    decreases n
  {
    SiblingAt(n.children, n.start, n.end, i);
    var c := n.children[i];
    if x != c {
      var j :| 0 <= j < |c.children| && c.children[j].named && Below(c.children[j], x);
      BelowIsInside(c, j, x);
      SiblingAt(c.children, c.start, c.end, j);
    }
  }

  lemma {:induction false} SiblingAt(ns: seq<Node>, lo: nat, hi: nat, i: nat)
    requires Siblings(ns, lo, hi) && i < |ns|
    ensures WellFormed(ns[i]) && lo <= ns[i].start <= ns[i].end <= hi
    decreases |ns|
  {
    if i > 0 {
      SiblingAt(ns[1..], ns[0].end, hi, i - 1);
    }
  }

  lemma {:induction false} SiblingsApart(ns: seq<Node>, lo: nat, hi: nat, i: nat, j: nat)
    requires Siblings(ns, lo, hi) && i < j < |ns|
    ensures ns[i].end <= ns[j].start
    decreases |ns|
  {
    if i > 0 {
      SiblingsApart(ns[1..], ns[0].end, hi, i - 1, j - 1);
    } else {
      SiblingAt(ns[1..], ns[0].end, hi, j - 1);
    }
  }

  lemma {:induction false} OneCovers(ns: seq<Node>, from: nat, to: nat, lo: nat, hi: nat, i: nat)
    requires Siblings(ns, from, to) && lo < hi && i < |ns| && ns[i].named && Covers(ns[i], lo, hi)
    ensures FirstCovering(ns, lo, hi) == Some(ns[i])
    decreases |ns|
  {
    if i > 0 {
      SiblingsApart(ns, from, to, 0, i);
      OneCovers(ns[1..], ns[0].end, to, lo, hi, i - 1);
    }
  }

  // ----- the three rules -----

  /** Entirely inside the wrapper's own text. */
  predicate InWrapper(n: Node, lo: nat, hi: nat) {
    n.end <= lo || n.start >= hi
  }

  predicate InFragment(n: Node, lo: nat, hi: nat) {
    lo <= n.start && n.end <= hi
  }

  function RangesOf(ns: seq<Node>): seq<Range> {
    seq(|ns|, i requires 0 <= i < |ns| => Range(ns[i].start, ns[i].end))
  }

  /** Rule 1: the node is the fragment. */
  predicate Exact(eff: Node, lo: nat, hi: nat) {
    eff.start == lo && eff.end == hi
  }

  predicate StartsFragment(n: Node, lo: nat, hi: nat) {
    n.named && n.start == lo && n.end < hi
  }

  /** Rule 2: child `k` is the last named one starting the fragment, nothing named stands before it, the
      children up to `m` are anonymous tokens of the fragment reaching its last byte, and the ones behind
      are anonymous wrapper text. */
  ghost predicate Absorbs(eff: Node, lo: nat, hi: nat, k: nat, m: nat) {
    var cs := eff.children;
    && k < m <= |cs|
    && StartsFragment(cs[k], lo, hi) && (forall i | k < i < |cs| :: !StartsFragment(cs[i], lo, hi))
    && (forall i | 0 <= i < k :: !cs[i].named)
    && (forall i | k < i < m :: !cs[i].named && InFragment(cs[i], lo, hi) && cs[i].start < hi)
    && cs[m - 1].end == hi
    && (m < |cs| ==> cs[m].start >= hi)
    && (forall i | m <= i < |cs| :: !cs[i].named && InWrapper(cs[i], lo, hi))
  }

  /** Rule 3: the node strictly contains the fragment, and whatever of it lies outside is anonymous wrapper
      text. */
  predicate Contains(eff: Node, lo: nat, hi: nat) {
    && eff.start < lo && hi < eff.end
    && forall i | 0 <= i < |eff.children| ::
         InFragment(eff.children[i], lo, hi) || (!eff.children[i].named && InWrapper(eff.children[i], lo, hi))
  }

  function Outside(cs: seq<Node>, lo: nat, hi: nat): seq<Range> {
    if cs == [] then []
    else Outside(cs[..|cs| - 1], lo, hi)
         + if InFragment(cs[|cs| - 1], lo, hi) then [] else [Range(cs[|cs| - 1].start, cs[|cs| - 1].end)]
  }

  method HostByAbsorption(eff: Node, depth: nat, lo: nat, hi: nat) returns (r: Option<Host>, ghost k: nat, ghost m: nat)
    ensures r.Some? ==> Absorbs(eff, lo, hi, k, m)
                        && r.value == Host(eff.children[k], depth + 1, RangesOf(eff.children[k + 1..m]), [])
    ensures r.None? ==> forall k', m' :: !Absorbs(eff, lo, hi, k', m')
  {
    var cs := eff.children;
    var host := -1;
    k, m := 0, 0;
    for i := 0 to |cs|
      invariant -1 <= host < i
      invariant host >= 0 ==> StartsFragment(cs[host], lo, hi)
      invariant forall j | host < j < i :: !StartsFragment(cs[j], lo, hi)
    {
      if cs[i].named && cs[i].start == lo && cs[i].end < hi {
        host := i;
      }
    }
    if host < 0 {
      return None, 0, 0;
    }
    k := host;
    for i := 0 to host
      invariant forall j | 0 <= j < i :: !cs[j].named
    {
      if cs[i].named {
        OnlyHost(eff, lo, hi, host);
        return None, 0, 0;
      }
    }
    r, m := Absorb(eff, depth, lo, hi, host);
  }

  lemma OnlyHost(eff: Node, lo: nat, hi: nat, host: nat)
    requires host < |eff.children| && StartsFragment(eff.children[host], lo, hi)
    requires forall j | host < j < |eff.children| :: !StartsFragment(eff.children[j], lo, hi)
    ensures forall k, m :: Absorbs(eff, lo, hi, k, m) ==> k == host
  {
  }

  /** The children from the root up to `i` are anonymous tokens of the fragment. */
  ghost predicate Run(cs: seq<Node>, lo: nat, hi: nat, host: nat, i: nat) {
    host < i <= |cs| && forall j | host < j < i :: !cs[j].named && InFragment(cs[j], lo, hi) && cs[j].start < hi
  }

  method AbsorbRun(cs: seq<Node>, lo: nat, hi: nat, host: nat) returns (absorbed: Option<seq<Range>>, i: nat)
    requires host < |cs|
    ensures Run(cs, lo, hi, host, i) && (i < |cs| && absorbed.Some? ==> cs[i].start >= hi)
    ensures absorbed.Some? ==> absorbed.value == RangesOf(cs[host + 1..i])
    ensures absorbed.None? ==> i < |cs| && cs[i].start < hi && (cs[i].named || !InFragment(cs[i], lo, hi))
  {
    var ranges: seq<Range> := [];
    i := host + 1;
    while i < |cs| && cs[i].start < hi
      invariant Run(cs, lo, hi, host, i)
      invariant ranges == RangesOf(cs[host + 1..i])
    {
      if cs[i].named || cs[i].start < lo || cs[i].end > hi {
        return None, i;
      }
      assert cs[host + 1..i + 1] == cs[host + 1..i] + [cs[i]];
      ranges := ranges + [Range(cs[i].start, cs[i].end)];
      i := i + 1;
    }
    return Some(ranges), i;
  }

  method Absorb(eff: Node, depth: nat, lo: nat, hi: nat, host: nat) returns (r: Option<Host>, ghost m: nat)
    requires host < |eff.children| && StartsFragment(eff.children[host], lo, hi)
    requires forall j | host < j < |eff.children| :: !StartsFragment(eff.children[j], lo, hi)
    requires forall j | 0 <= j < host :: !eff.children[j].named
    ensures r.Some? ==> Absorbs(eff, lo, hi, host, m)
                        && r.value == Host(eff.children[host], depth + 1, RangesOf(eff.children[host + 1..m]), [])
    ensures r.None? ==> forall k', m' :: !Absorbs(eff, lo, hi, k', m')
  {
    var cs := eff.children;
    OnlyHost(eff, lo, hi, host);
    var absorbed, i := AbsorbRun(cs, lo, hi, host);
    m := i;
    if absorbed.None? {
      BrokenRun(eff, lo, hi, host, i);
      return None, 0;
    }
    EndOfRun(eff, lo, hi, host, i);
    if cs[i - 1].end != hi {
      return None, 0;
    }
    while i < |cs|
      invariant m <= i <= |cs| && forall j | m <= j < i :: !cs[j].named && InWrapper(cs[j], lo, hi)
    {
      if cs[i].named || !InWrapper(cs[i], lo, hi) {
        return None, 0;
      }
      i := i + 1;
    }
    return Some(Host(cs[host], depth + 1, absorbed.value, [])), m;
  }

  lemma BrokenRun(eff: Node, lo: nat, hi: nat, host: nat, i: nat)
    requires Run(eff.children, lo, hi, host, i) && i < |eff.children| && eff.children[i].start < hi
    requires eff.children[i].named || !InFragment(eff.children[i], lo, hi)
    ensures forall m :: !Absorbs(eff, lo, hi, host, m)
  {
  }

  /** The run of absorbed tokens ends where the first child at or behind the fragment's end stands. */
  lemma EndOfRun(eff: Node, lo: nat, hi: nat, host: nat, i: nat)
    requires host < i <= |eff.children|
    requires forall j | host < j < i :: eff.children[j].start < hi
    requires i < |eff.children| ==> eff.children[i].start >= hi
    ensures forall m :: Absorbs(eff, lo, hi, host, m) ==> m == i
  {
    forall m: nat | Absorbs(eff, lo, hi, host, m) ensures m == i {
      assert i < |eff.children| ==> hi <= eff.children[i].start;
    }
  }

  method HostByContainer(eff: Node, depth: nat, lo: nat, hi: nat) returns (r: Option<Host>)
    ensures r == if Contains(eff, lo, hi) then Some(Host(eff, depth, [], Outside(eff.children, lo, hi))) else None
  {
    if eff.start >= lo || eff.end <= hi {
      return None;
    }
    var outOfSpan: seq<Range> := [];
    var cs := eff.children;
    for i := 0 to |cs|
      invariant forall j | 0 <= j < i :: InFragment(cs[j], lo, hi) || (!cs[j].named && InWrapper(cs[j], lo, hi))
      invariant outOfSpan == Outside(cs[..i], lo, hi)
    {
      assert cs[..i + 1][..i] == cs[..i];
      if cs[i].start >= lo && cs[i].end <= hi {
        continue;
      }
      if cs[i].named || !InWrapper(cs[i], lo, hi) {
        return None;
      }
      outOfSpan := outOfSpan + [Range(cs[i].start, cs[i].end)];
    }
    assert cs[..|cs|] == cs;
    return Some(Host(eff, depth, [], outOfSpan));
  }

  /** The rule an accepted host falls under. */
  datatype Rule = IsFragment | TrailingAbsorbed(k: nat, m: nat) | IsContainer

  ghost predicate HostedBy(eff: Node, depth: nat, lo: nat, hi: nat, rule: Rule, h: Host) {
    match rule
    case IsFragment => Exact(eff, lo, hi) && h == Host(eff, depth, [], [])
    case TrailingAbsorbed(k, m) =>
      && !Exact(eff, lo, hi) && Absorbs(eff, lo, hi, k, m)
      && h == Host(eff.children[k], depth + 1, RangesOf(eff.children[k + 1..m]), [])
    case IsContainer =>
      && !Exact(eff, lo, hi) && (forall k, m :: !Absorbs(eff, lo, hi, k, m)) && Contains(eff, lo, hi)
      && h == Host(eff, depth, [], Outside(eff.children, lo, hi))
  }

  /** Applies the rules in order to the smallest node covering the fragment. */
  method HostsPattern(parseRoot: Node, lo: nat, hi: nat) returns (r: Option<Host>, ghost rule: Rule)
    ensures r.Some? ==> Covers(parseRoot, lo, hi)
                        && HostedBy(Smallest(parseRoot, lo, hi, 0).value.0, Smallest(parseRoot, lo, hi, 0).value.1, lo, hi, rule, r.value)
    ensures r.None? ==> !Covers(parseRoot, lo, hi)
                        || forall any, h :: !HostedBy(Smallest(parseRoot, lo, hi, 0).value.0, Smallest(parseRoot, lo, hi, 0).value.1, lo, hi, any, h)
  {
    rule := IsFragment;
    var found := Smallest(parseRoot, lo, hi, 0);
    if found.None? {
      return None, rule;
    }
    var eff, depth := found.value.0, found.value.1;
    if eff.start == lo && eff.end == hi {
      return Some(Host(eff, depth, [], [])), rule;
    }
    ghost var k, m;
    r, k, m := HostByAbsorption(eff, depth, lo, hi);
    if r.Some? {
      return r, TrailingAbsorbed(k, m);
    }
    r := HostByContainer(eff, depth, lo, hi);
    return r, IsContainer;
  }

  /** No two rules host the same node, and one rule hosts it in one way only. */
  lemma OneRuleOneHost(eff: Node, depth: nat, lo: nat, hi: nat, rule: Rule, h: Host, rule': Rule, h': Host)
    requires HostedBy(eff, depth, lo, hi, rule, h) && HostedBy(eff, depth, lo, hi, rule', h')
    ensures rule == rule' && h == h'
  {
    if rule.TrailingAbsorbed? && rule'.TrailingAbsorbed? {
      OnlyHost(eff, lo, hi, rule.k);
      EndOfRun(eff, lo, hi, rule.k, rule.m);
    }
  }

  // ----- what the rules set aside -----

  predicate Ordered(rs: seq<Range>, lo: nat, hi: nat) {
    && (forall i | 0 <= i < |rs| :: lo <= rs[i].start <= rs[i].end <= hi)
    && (forall i, j | 0 <= i < j < |rs| :: rs[i].end <= rs[j].start)
  }

  /** Absorbed spans are anonymous tokens of the fragment behind the root, in order, the last ending at the
      fragment's last byte; nothing of the wrapper is among them. */
  lemma AbsorbedIsFragmentText(eff: Node, depth: nat, lo: nat, hi: nat, k: nat, m: nat, h: Host)
    requires WellFormed(eff) && HostedBy(eff, depth, lo, hi, TrailingAbsorbed(k, m), h)
    ensures h.root.named && h.root.start == lo && h.absorbed != []
    ensures Ordered(h.absorbed, h.root.end, hi) && h.absorbed[|h.absorbed| - 1].end == hi
    ensures forall i | 0 <= i < |h.absorbed| :: lo <= h.absorbed[i].start && !eff.children[k + 1 + i].named
  {
    hide Siblings;
    var cs := eff.children;
    assert cs[k].end < hi;
    forall i | 0 <= i < |h.absorbed| ensures h.root.end <= h.absorbed[i].start <= h.absorbed[i].end <= hi {
      SiblingsApart(cs, eff.start, eff.end, k, k + 1 + i);
      SiblingAt(cs, eff.start, eff.end, k + 1 + i);
    }
    forall i, j | 0 <= i < j < |h.absorbed| ensures h.absorbed[i].end <= h.absorbed[j].start {
      SiblingsApart(cs, eff.start, eff.end, k + 1 + i, k + 1 + j);
    }
    SiblingAt(cs, eff.start, eff.end, k);
  }

  /** Out-of-span ranges are wrapper text, in order, and no named child of the root reaches outside the
      fragment. */
  lemma OutOfSpanIsWrapperText(eff: Node, depth: nat, lo: nat, hi: nat, h: Host)
    requires WellFormed(eff) && HostedBy(eff, depth, lo, hi, IsContainer, h)
    ensures h.root == eff && forall r | r in h.outOfSpan :: r.end <= lo || hi <= r.start
    ensures Ordered(h.outOfSpan, eff.start, eff.end)
    ensures forall c | c in eff.children && c.named :: lo <= c.start && c.end <= hi
  {
    hide Siblings;
    OutsideInOrder(eff.children, eff.start, eff.end, lo, hi);
    if eff.children != [] {
      SiblingAt(eff.children, eff.start, eff.end, |eff.children| - 1);
    }
  }

  lemma {:induction false} OutsideInOrder(cs: seq<Node>, from: nat, to: nat, lo: nat, hi: nat)
    requires Siblings(cs, from, to)
    requires forall i | 0 <= i < |cs| :: InFragment(cs[i], lo, hi) || InWrapper(cs[i], lo, hi)
    ensures Ordered(Outside(cs, lo, hi), from, if cs == [] then from else cs[|cs| - 1].end)
    ensures forall r | r in Outside(cs, lo, hi) :: r.end <= lo || hi <= r.start
    decreases |cs|
  {
    hide Siblings, Ordered;
    if cs != [] {
      var n := |cs| - 1;
      PrefixSiblings(cs, from, to, n);
      OutsideInOrder(cs[..n], from, to, lo, hi);
      SiblingAt(cs, from, to, n);
      if n > 0 {
        SiblingsApart(cs, from, to, n - 1, n);
        SiblingAt(cs, from, to, n - 1);
      }
      assert InFragment(cs[n], lo, hi) || InWrapper(cs[n], lo, hi);
      assert Outside(cs[..n], lo, hi) + [] == Outside(cs[..n], lo, hi);
      OrderedSnoc(Outside(cs[..n], lo, hi), from, if n == 0 then from else cs[n - 1].end, Range(cs[n].start, cs[n].end));
    } else {
      NothingOrdered(from);
    }
  }

  lemma NothingOrdered(from: nat)
    ensures Ordered([], from, from)
  {
  }

  lemma OrderedSnoc(rs: seq<Range>, lo: nat, mid: nat, r: Range)
    requires Ordered(rs, lo, mid) && lo <= mid <= r.start <= r.end
    ensures Ordered(rs + [r], lo, r.end) && Ordered(rs, lo, r.end)
  {
  }

  lemma {:induction false} PrefixSiblings(cs: seq<Node>, from: nat, to: nat, n: nat)
    requires Siblings(cs, from, to) && n <= |cs|
    ensures Siblings(cs[..n], from, to)
    decreases n
  {
    if n > 0 {
      PrefixSiblings(cs[1..], cs[0].end, to, n - 1);
      assert cs[..n][1..] == cs[1..][..n - 1];
    }
  }

  /** The order of the rules decides: a container whose member is followed by the fragment's own `;` meets
      both the second and the third. */
  lemma RuleOrderMatters(brace: string, member: string, semi: string, body: string)
    ensures var eff := Node(body, true, 0, 12, 0, "",
                            [Node(brace, false, 0, 1, 0, "", []), Node(member, true, 2, 9, 0, "", []),
                             Node(semi, false, 9, 10, 0, "", []), Node(brace, false, 11, 12, 0, "", [])]);
            !Exact(eff, 2, 10) && Absorbs(eff, 2, 10, 1, 3) && Contains(eff, 2, 10)
  {
  }
}
