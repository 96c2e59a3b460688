/**
 The anchor list of one match: literal tokens from the alignment and named placeholders from the
 captures, sorted by source position and thinned to a strictly ascending tiling.
 */
module SpliceAnchors {
  import opened Bytes
  import opened MatchRecords
  import opened RawMatches

  /** One pattern token whose position in the source is known. `name` is set for a placeholder, `text`
      and the pattern range for a literal. */
  datatype Anchor = Anchor(name: bytes, text: bytes, srcStart: nat, srcEnd: nat, patStart: nat, patEnd: nat)

  predicate Inside(start: nat, end: nat, outer: Capture) {
    outer.start <= start < end <= outer.end
  }

  function LiteralAnchor(a: TokenAlign, src: bytes): Anchor {
    Anchor([], Slice(src, a.srcStart, a.srcEnd), a.srcStart, a.srcEnd, a.patStart, a.patEnd)
  }

  function NamedAnchor(name: bytes, c: Capture): Anchor {
    Anchor(name, [], c.start, c.end, 0, 0)
  }

  /** What may become an anchor: a non-empty literal or a non-empty named capture in the outer span. */
  ghost predicate Candidate(m: RawMatch, src: bytes, outer: Capture, x: Anchor) {
    || (exists a | a in m.alignment :: Inside(a.srcStart, a.srcEnd, outer) && x == LiteralAnchor(a, src))
    || (x.name in m.captures && x.name != [] && x.name != OUTER
        && Inside(m.captures[x.name].start, m.captures[x.name].end, outer)
        && x == NamedAnchor(x.name, m.captures[x.name]))
  }

  /** Strictly ascending, disjoint, non-empty, inside [lo, hi). */
  predicate Tiling(xs: seq<Anchor>, lo: nat, hi: nat) {
    && lo <= hi
    && (forall i | 0 <= i < |xs| :: lo <= xs[i].srcStart < xs[i].srcEnd <= hi)
    && (forall i, j | 0 <= i < j < |xs| :: xs[i].srcEnd <= xs[j].srcStart)
  }

  predicate Before(x: Anchor, y: Anchor) {
    x.srcStart < y.srcStart || (x.srcStart == y.srcStart && x.srcEnd <= y.srcEnd)
  }

  predicate Sorted(xs: seq<Anchor>) {
    forall i, j | 0 <= i < j < |xs| :: Before(xs[i], xs[j])
  }

  predicate SameMembers(xs: seq<Anchor>, ys: seq<Anchor>) {
    multiset(xs) == multiset(ys)
  }

  method InsertAnchor(xs: seq<Anchor>, x: Anchor) returns (out: seq<Anchor>)
    requires Sorted(xs)
    ensures Sorted(out) && SameMembers(out, xs + [x])
  {
    var k := |xs|;
    while k > 0 && !Before(xs[k - 1], x)
      invariant 0 <= k <= |xs|
      invariant forall j | k <= j < |xs| :: Before(x, xs[j])
    {
      k := k - 1;
    }
    out := xs[..k] + [x] + xs[k..];
    InsertedSorted(xs, x, k);
    assert xs == xs[..k] + xs[k..];
  }

  lemma InsertedSorted(xs: seq<Anchor>, x: Anchor, k: nat)
    requires Sorted(xs) && k <= |xs| && (k > 0 ==> Before(xs[k - 1], x))
    requires forall j | k <= j < |xs| :: Before(x, xs[j])
    ensures Sorted(xs[..k] + [x] + xs[k..])
  {
    var out := xs[..k] + [x] + xs[k..];
    forall i, j | 0 <= i < j < |out| ensures Before(out[i], out[j]) {
      if i < k && j == k {
        assert i < k - 1 ==> Before(xs[i], xs[k - 1]);
      }
    }
  }

  /** Sorts by source position. Entries that compare equal come out in an order of its own choosing. */
  method SortAnchors(xs: seq<Anchor>) returns (out: seq<Anchor>)
    ensures Sorted(out) && SameMembers(out, xs)
  {
    hide Sorted;
    out := [];
    NothingSorted();
    for i := 0 to |xs|
      invariant Sorted(out) && SameMembers(out, xs[..i])
    {
      assert xs[..i + 1] == xs[..i] + [xs[i]];
      out := InsertAnchor(out, xs[i]);
    }
    assert xs[..|xs|] == xs;
  }

  lemma NothingSorted()
    ensures Sorted([])
  {
  }

  lemma SameMembersIn(xs: seq<Anchor>, ys: seq<Anchor>)
    requires SameMembers(xs, ys)
    ensures forall x :: x in xs <==> x in ys
  {
    forall x ensures x in xs <==> x in ys {
      assert x in multiset(xs) <==> x in xs;
      assert x in multiset(ys) <==> x in ys;
    }
  }

  /** The anchor list: a tiling of candidates; a candidate is left out only when a kept anchor that sorts
      no later covers its first byte. */
  ghost predicate AnchorList(m: RawMatch, src: bytes, outer: Capture, kept: seq<Anchor>) {
    && Tiling(kept, outer.start, outer.end)
    && (forall k | k in kept :: Candidate(m, src, outer, k))
    && (forall x | Candidate(m, src, outer, x) :: x in kept || Shadowed(x, kept))
  }

  ghost predicate Shadowed(x: Anchor, kept: seq<Anchor>) {
    exists k | k in kept :: Before(k, x) && x.srcStart < k.srcEnd
  }

  method CollectCandidates(m: RawMatch, src: bytes, outer: Capture) returns (out: seq<Anchor>)
    ensures forall x :: x in out <==> Candidate(m, src, outer, x)
  {
    out := [];
    for i := 0 to |m.alignment|
      invariant forall x :: x in out <==>
        exists a | a in m.alignment[..i] :: Inside(a.srcStart, a.srcEnd, outer) && x == LiteralAnchor(a, src)
    {
      var a := m.alignment[i];
      assert m.alignment[..i + 1] == m.alignment[..i] + [a];
      if a.srcEnd <= a.srcStart || a.srcStart < outer.start || a.srcEnd > outer.end {
        continue;
      }
      out := out + [LiteralAnchor(a, src)];
    }
    assert m.alignment[..|m.alignment|] == m.alignment;
    ghost var literals := out;
    var todo := m.captures.Keys;
    while todo != {}
      invariant todo <= m.captures.Keys
      invariant forall x :: x in out <==> x in literals || (NamedCandidate(m, outer, x) && x.name !in todo)
      decreases |todo|
    {
      var name :| name in todo;
      todo := todo - {name};
      var c := m.captures[name];
      if name == [] || name == OUTER {
        continue;
      }
      if c.end <= c.start || c.start < outer.start || c.end > outer.end {
        continue;
      }
      out := out + [NamedAnchor(name, c)];
    }
  }

  predicate NamedCandidate(m: RawMatch, outer: Capture, x: Anchor) {
    && x.name in m.captures && x.name != [] && x.name != OUTER
    && Inside(m.captures[x.name].start, m.captures[x.name].end, outer)
    && x == NamedAnchor(x.name, m.captures[x.name])
  }

  /** The filter's state after reading the sorted prefix `seen`. */
  ghost predicate Filtered(seen: seq<Anchor>, kept: seq<Anchor>, lo: nat, hi: nat) {
    && Tiling(kept, lo, hi)
    && (forall k | k in kept :: k in seen)
    && (forall x | x in seen :: x in kept || Shadowed(x, kept))
  }

  lemma FilterSkips(seen: seq<Anchor>, kept: seq<Anchor>, a: Anchor, lo: nat, hi: nat)
    requires Filtered(seen, kept, lo, hi) && kept != [] && Sorted(seen + [a])
    requires a.srcStart < kept[|kept| - 1].srcEnd
    ensures Filtered(seen + [a], kept, lo, hi)
  {
    var last := kept[|kept| - 1];
    assert last in kept && last in seen;
    var i :| 0 <= i < |seen| && seen[i] == last;
    assert Before((seen + [a])[i], (seen + [a])[|seen|]);
    assert Shadowed(a, kept);
  }

  lemma FilterKeeps(seen: seq<Anchor>, kept: seq<Anchor>, a: Anchor, lo: nat, hi: nat)
    requires Filtered(seen, kept, lo, hi)
    requires lo <= a.srcStart < a.srcEnd <= hi
    requires kept != [] ==> kept[|kept| - 1].srcEnd <= a.srcStart
    ensures Filtered(seen + [a], kept + [a], lo, hi)
  {
    forall i | 0 <= i < |kept| ensures kept[i].srcEnd <= a.srcStart {
      if i < |kept| - 1 {
        assert kept[i].srcEnd <= kept[|kept| - 1].srcStart;
      }
    }
    forall x | x in seen ensures x in kept + [a] || Shadowed(x, kept + [a]) {
      if x !in kept {
        var k :| k in kept && Before(k, x) && x.srcStart < k.srcEnd;
        assert k in kept + [a];
      }
    }
  }

  /** Keeps, in sorted order, every entry that starts at or after the end of the last one kept. */
  method BuildAnchors(m: RawMatch, src: bytes, outer: Capture) returns (kept: seq<Anchor>)
    requires outer.start <= outer.end
    ensures AnchorList(m, src, outer, kept)
  {
    var out := CollectCandidates(m, src, outer);
    var sorted := SortAnchors(out);
    SameMembersIn(sorted, out);
    CandidatesInside(m, src, outer, sorted);
    hide *;
    kept := [];
    var end := 0;
    FilterStarts(outer.start, outer.end);
    for i := 0 to |sorted|
      invariant Filtered(sorted[..i], kept, outer.start, outer.end)
      invariant kept != [] ==> end == kept[|kept| - 1].srcEnd
    {
      var a := sorted[i];
      assert sorted[..i + 1] == sorted[..i] + [a];
      SortedPrefix(sorted, i + 1);
      if |kept| > 0 && a.srcStart < end {
        FilterSkips(sorted[..i], kept, a, outer.start, outer.end);
        continue;
      }
      FilterKeeps(sorted[..i], kept, a, outer.start, outer.end);
      kept := kept + [a];
      end := a.srcEnd;
    }
    assert sorted[..|sorted|] == sorted;
    FilterEnds(m, src, outer, sorted, kept);
  }

  lemma CandidatesInside(m: RawMatch, src: bytes, outer: Capture, sorted: seq<Anchor>)
    requires forall x :: x in sorted ==> Candidate(m, src, outer, x)
    ensures forall i | 0 <= i < |sorted| :: outer.start <= sorted[i].srcStart < sorted[i].srcEnd <= outer.end
  {
    forall i | 0 <= i < |sorted| ensures outer.start <= sorted[i].srcStart < sorted[i].srcEnd <= outer.end {
      assert sorted[i] in sorted;
    }
  }

  lemma SortedPrefix(xs: seq<Anchor>, n: nat)
    requires Sorted(xs) && n <= |xs|
    ensures Sorted(xs[..n])
  {
  }

  lemma FilterStarts(lo: nat, hi: nat)
    requires lo <= hi
    ensures Filtered([], [], lo, hi)
  {
  }

  lemma FilterEnds(m: RawMatch, src: bytes, outer: Capture, sorted: seq<Anchor>, kept: seq<Anchor>)
    requires Filtered(sorted, kept, outer.start, outer.end)
    requires forall x :: x in sorted <==> Candidate(m, src, outer, x)
    ensures AnchorList(m, src, outer, kept)
  {
  }

  predicate NoOverlap(x: Anchor, y: Anchor) {
    y.srcEnd <= x.srcStart || x.srcEnd <= y.srcStart
  }

  /** A candidate that overlaps no other is an anchor. */
  lemma DisjointCandidatesAllKept(m: RawMatch, src: bytes, outer: Capture, kept: seq<Anchor>, x: Anchor)
    requires AnchorList(m, src, outer, kept) && Candidate(m, src, outer, x)
    requires forall y | Candidate(m, src, outer, y) && y != x :: NoOverlap(x, y)
    ensures x in kept
  {
  }

  lemma AnchorsApart(kept: seq<Anchor>, lo: nat, hi: nat, x: Anchor, y: Anchor)
    requires Tiling(kept, lo, hi) && x in kept && y in kept && x != y
    ensures NoOverlap(x, y)
  {
    var i :| 0 <= i < |kept| && kept[i] == x;
    var j :| 0 <= j < |kept| && kept[j] == y;
  }

  /** A candidate is never an anchor when another one starts with it and ends before it. */
  lemma SameStartShorterWins(m: RawMatch, src: bytes, outer: Capture, kept: seq<Anchor>, x: Anchor, h: Anchor)
    requires AnchorList(m, src, outer, kept) && Candidate(m, src, outer, h)
    requires h.srcStart == x.srcStart && h.srcStart < h.srcEnd < x.srcEnd
    ensures x !in kept
  {
    hide Candidate, Tiling;
    var k := h;
    if h !in kept {
      k :| k in kept && Before(k, h) && h.srcStart < k.srcEnd;
    }
    forall y | y in kept ensures y != x {
      if y != k {
        AnchorsApart(kept, outer.start, outer.end, k, y);
      }
    }
  }

  ghost predicate AllKept(m: RawMatch, src: bytes, outer: Capture, kept: seq<Anchor>) {
    forall x | Candidate(m, src, outer, x) :: x in kept
  }

  ghost predicate AllApart(m: RawMatch, src: bytes, outer: Capture) {
    forall x, y | Candidate(m, src, outer, x) && Candidate(m, src, outer, y) && x != y :: NoOverlap(x, y)
  }

  /** No candidate is lost exactly when no two overlap. */
  lemma AllKeptIffApart(m: RawMatch, src: bytes, outer: Capture, kept: seq<Anchor>)
    requires AnchorList(m, src, outer, kept)
    ensures AllKept(m, src, outer, kept) <==> AllApart(m, src, outer)
  {
    hide Candidate, Tiling, NoOverlap;
    if AllKept(m, src, outer, kept) {
      forall x, y | Candidate(m, src, outer, x) && Candidate(m, src, outer, y) && x != y ensures NoOverlap(x, y) {
        AnchorsApart(kept, outer.start, outer.end, x, y);
      }
    }
    if AllApart(m, src, outer) {
      forall x | Candidate(m, src, outer, x) ensures x in kept {
        DisjointCandidatesAllKept(m, src, outer, kept, x);
      }
    }
  }

  /** Two tilings of the same anchors are the same list. */
  lemma {:induction false} TilingIsUnique(xs: seq<Anchor>, ys: seq<Anchor>, lo: nat, hi: nat)
    requires Tiling(xs, lo, hi) && Tiling(ys, lo, hi) && forall x :: x in xs <==> x in ys
    ensures xs == ys
    decreases |xs|
  {
    SameEmptiness(xs, ys);
    if xs != [] {
      assert xs[0] in xs;
      var j :| 0 <= j < |ys| && ys[j] == xs[0];
      assert ys[0] in ys;
      var i :| 0 <= i < |xs| && xs[i] == ys[0];
      FirstIsFirst(xs, ys, lo, hi, i, j);
      TailMembers(xs, ys, lo, hi);
      TilingIsUnique(xs[1..], ys[1..], lo, hi);
    }
  }

  lemma SameEmptiness(xs: seq<Anchor>, ys: seq<Anchor>)
    requires forall x :: x in xs <==> x in ys
    ensures xs == [] <==> ys == []
  {
    if xs != [] {
      assert xs[0] in xs;
    }
    if ys != [] {
      assert ys[0] in ys;
    }
  }

  lemma FirstIsFirst(xs: seq<Anchor>, ys: seq<Anchor>, lo: nat, hi: nat, i: nat, j: nat)
    requires Tiling(xs, lo, hi) && Tiling(ys, lo, hi) && i < |xs| && j < |ys|
    requires xs[i] == ys[0] && ys[j] == xs[0]
    ensures i == j == 0
  {
  }

  lemma TailMembers(xs: seq<Anchor>, ys: seq<Anchor>, lo: nat, hi: nat)
    requires Tiling(xs, lo, hi) && Tiling(ys, lo, hi) && xs != [] && ys != [] && xs[0] == ys[0]
    requires forall x :: x in xs <==> x in ys
    ensures forall x :: x in xs[1..] <==> x in ys[1..]
  {
    forall x ensures x in xs[1..] <==> x in ys[1..] {
      NotTwice(xs, lo, hi, x);
      NotTwice(ys, lo, hi, x);
    }
  }

  lemma NotTwice(xs: seq<Anchor>, lo: nat, hi: nat, x: Anchor)
    requires Tiling(xs, lo, hi) && xs != []
    ensures x in xs[1..] <==> x in xs && x != xs[0]
  {
  }
}
