/**
 Applying the replacements of one file: edits are kept in descending order of position, files whose
 edits overlap are refused, and the output is assembled in one forward pass.
 */
module Edits {
  import opened Bytes
  import opened Outcomes

  /** Replace [start, end) with `replacement`. */
  datatype Edit = Edit(start: nat, end: nat, replacement: bytes)

  datatype EditError = OutOfBounds(e: Edit) | OutOfOrder(e: Edit)

  predicate InBounds(src: bytes, e: Edit) {
    e.start <= e.end <= |src|
  }

  predicate AllInBounds(src: bytes, edits: seq<Edit>) {
    forall i | 0 <= i < |edits| :: InBounds(src, edits[i])
  }

  /** Some edit reaches past the start of the one before it in the list. */
  predicate Overlapping(edits: seq<Edit>) {
    exists i | 0 < i < |edits| :: edits[i].end > edits[i - 1].start
  }

  method HasOverlap(edits: seq<Edit>) returns (r: bool)
    ensures r == Overlapping(edits)
  {
    var i := 0;
    while i + 1 < |edits|
      invariant i <= |edits|
      invariant forall j | 0 < j <= i && j < |edits| :: edits[j].end <= edits[j - 1].start
    {
      if edits[i + 1].end > edits[i].start {
        return true;
      }
      i := i + 1;
    }
    return false;
  }

  /** The naive application: one edit after another, right to left, on a mutable copy. */
  function RightToLeft(buf: bytes, edits: seq<Edit>): bytes
    decreases |edits|
  {
    if edits == [] then buf else RightToLeft(Applied(buf, edits[0]), edits[1..])
  }

  function Applied(buf: bytes, e: Edit): bytes {
    Slice(buf, 0, e.start) + e.replacement + Slice(buf, e.end, |buf|)
  }

  /** What a forward pass from `prev` on assembles, the list's last edit first. */
  function Forward(src: bytes, edits: seq<Edit>, prev: nat): bytes
    decreases |edits|
  {
    if edits == [] then Slice(src, prev, |src|)
    else
      var e := edits[|edits| - 1];
      Slice(src, prev, e.start) + e.replacement + Forward(src, edits[..|edits| - 1], e.end)
  }

  /** How much longer the output is than the source. */
  function Growth(edits: seq<Edit>): int {
    if edits == [] then 0
    else Growth(edits[..|edits| - 1]) + |edits[|edits| - 1].replacement| - (edits[|edits| - 1].end - edits[|edits| - 1].start)
  }

  /** Every edit lies wholly in front of the edits before it in the list. */
  predicate PairwiseApart(edits: seq<Edit>) {
    forall i, j | 0 <= i < j < |edits| :: edits[j].end <= edits[i].start
  }

  /** Neighbours apart means all apart. */
  lemma ApartIffNotOverlapping(src: bytes, edits: seq<Edit>)
    requires AllInBounds(src, edits)
    ensures PairwiseApart(edits) <==> !Overlapping(edits)
  {
    if !Overlapping(edits) {
      forall i, j | 0 <= i < j < |edits| ensures edits[j].end <= edits[i].start {
        ApartFrom(src, edits, i, j);
      }
    }
  }

  lemma {:induction false} ApartFrom(src: bytes, edits: seq<Edit>, i: nat, j: nat)
    requires AllInBounds(src, edits) && !Overlapping(edits) && i < j < |edits|
    ensures edits[j].end <= edits[i].start
    decreases j - i
  {
    assert edits[j].end <= edits[j - 1].start;
    if i < j - 1 {
      ApartFrom(src, edits, i, j - 1);
      assert InBounds(src, edits[j - 1]);
    }
  }

  lemma ForwardStep(src: bytes, edits: seq<Edit>, prev: nat)
    ensures Forward(src, edits, prev)
         == if edits == [] then Slice(src, prev, |src|)
            else Slice(src, prev, edits[|edits| - 1].start) + edits[|edits| - 1].replacement
                 + Forward(src, edits[..|edits| - 1], edits[|edits| - 1].end)
  {
  }

  /** Checks every range against the source and sums the exact output size. */
  method MeasureOutput(src: bytes, edits: seq<Edit>) returns (r: Result<int, EditError>)
    ensures r.Ok? <==> AllInBounds(src, edits)
    ensures r.Ok? ==> r.value == |src| + Growth(edits)
    ensures r.Err? ==> r.error.OutOfBounds?
  {
    var total: int := |src|;
    for i := 0 to |edits|
      invariant forall j | 0 <= j < i :: InBounds(src, edits[j])
      invariant total == |src| + Growth(edits[..i])
    {
      var e := edits[i];
      assert edits[..i + 1][..i] == edits[..i];
      if e.start > e.end || e.end > |src| {
        assert !InBounds(src, edits[i]);
        return Err(OutOfBounds(e));
      }
      total := total + |e.replacement| - (e.end - e.start);
    }
    assert edits[..|edits|] == edits;
    return Ok(total);
  }

  /** Assembles the rewritten bytes in one forward pass. */
  method SpliceEdits(src: bytes, edits: seq<Edit>) returns (r: Result<bytes, EditError>)
    ensures r.Ok? <==> AllInBounds(src, edits) && !Overlapping(edits)
    ensures r.Ok? ==> r.value == RightToLeft(src, edits)
    ensures r.Ok? ==> |r.value| == |src| + Growth(edits)
  {
    hide Growth, Forward, RightToLeft, PairwiseApart;
    var total := MeasureOutput(src, edits);
    if total.Err? {
      return Err(total.error);
    }
    var out: bytes := [];
    var prev, k := 0, |edits|;
    assert edits[..|edits|] == edits;
    assert out + Forward(src, edits, 0) == Forward(src, edits, 0);
    while k > 0
      invariant 0 <= k <= |edits| && prev <= |src|
      invariant prev == if k == |edits| then 0 else edits[k].end
      invariant forall j | k < j < |edits| :: edits[j].end <= edits[j - 1].start
      invariant out + Forward(src, edits[..k], prev) == Forward(src, edits, 0)
    {
      k := k - 1;
      var e := edits[k];
      assert InBounds(src, edits[k]);
      if e.start < prev {
        return Err(OutOfOrder(e));
      }
      ForwardStep(src, edits[..k + 1], prev);
      assert edits[..k + 1][..k] == edits[..k];
      Reassociate(out, src[prev..e.start], e.replacement, Forward(src, edits[..k], e.end));
      out := out + src[prev..e.start] + e.replacement;
      prev := e.end;
    }
    ForwardStep(src, edits[..0], prev);
    out := out + src[prev..];
    ApartIffNotOverlapping(src, edits);
    ForwardIsRightToLeft(src, edits);
    ForwardLength(src, edits, 0);
    return Ok(out);
  }

  lemma Reassociate(a: bytes, b: bytes, c: bytes, d: bytes)
    ensures a + (b + c + d) == (a + b + c) + d
  {
  }

  lemma {:induction false} ForwardLength(src: bytes, edits: seq<Edit>, prev: nat)
    requires AllInBounds(src, edits) && PairwiseApart(edits) && prev <= |src|
    requires edits != [] ==> prev <= edits[|edits| - 1].start
    ensures |Forward(src, edits, prev)| == |src| - prev + Growth(edits)
    decreases |edits|
  {
    if edits != [] {
      var n := |edits| - 1;
      assert InBounds(src, edits[n]);
      ForwardLength(src, edits[..n], edits[n].end);
    }
  }

  /** Making the rightmost edit first does not change what a forward pass over the others assembles. */
  lemma {:induction false} RightmostFirst(src: bytes, e: Edit, rest: seq<Edit>, prev: nat)
    requires InBounds(src, e) && prev <= e.start
    requires forall i | 0 <= i < |rest| :: rest[i].start <= rest[i].end <= e.start
    ensures Forward(src, [e] + rest, prev) == Forward(Applied(src, e), rest, prev)
    decreases |rest|
  {
    hide *;
    var src' := Applied(src, e);
    if rest == [] {
      RightmostAlone(src, e, prev);
      assert [e] + [] == [e];
    } else {
      var n := |rest| - 1;
      var f, all := rest[n], [e] + rest;
      assert all[|all| - 1] == f && all[..|all| - 1] == [e] + rest[..n];
      ForwardStep(src, all, prev);
      ForwardStep(src', rest, prev);
      RightmostFirst(src, e, rest[..n], f.end);
      BelowUnchanged(src, e, prev, f.start);
    }
  }

  lemma RightmostAlone(src: bytes, e: Edit, prev: nat)
    requires InBounds(src, e) && prev <= e.start
    ensures Forward(src, [e], prev) == Forward(Applied(src, e), [], prev)
  {
    hide Forward, Applied;
    assert [e][..0] == [];
    ForwardStep(src, [e], prev);
    ForwardStep(src, [], e.end);
    ForwardStep(Applied(src, e), [], prev);
    AppliedFrom(src, e, prev);
  }

  lemma AppliedFrom(src: bytes, e: Edit, prev: nat)
    requires InBounds(src, e) && prev <= e.start
    ensures var out := Applied(src, e); prev <= |out| && out[prev..] == src[prev..e.start] + e.replacement + src[e.end..]
  {
    var before := src[..e.start];
    assert Applied(src, e) == before + (e.replacement + src[e.end..]);
    assert before[prev..] == src[prev..e.start];
  }

  lemma BelowUnchanged(src: bytes, e: Edit, lo: nat, hi: nat)
    requires InBounds(src, e) && hi <= e.start
    ensures Slice(src, lo, hi) == Slice(Applied(src, e), lo, hi)
  {
    if lo <= hi {
      var t := Applied(src, e);
      forall k | lo <= k < hi ensures t[k] == src[k] {
        assert t[k] == Slice(src, 0, e.start)[k];
      }
    }
  }

  lemma {:induction false} ForwardIsRightToLeft(src: bytes, edits: seq<Edit>)
    requires AllInBounds(src, edits) && PairwiseApart(edits)
    ensures Forward(src, edits, 0) == RightToLeft(src, edits)
    decreases |edits|
  {
    if edits != [] {
      var e, rest := edits[0], edits[1..];
      assert edits == [e] + rest;
      assert InBounds(src, e);
      forall i | 0 <= i < |rest| ensures InBounds(src, rest[i]) && rest[i].end <= e.start {
        assert rest[i] == edits[i + 1] && InBounds(src, edits[i + 1]);
      }
      RightmostFirst(src, e, rest, 0);
      ForwardIsRightToLeft(Applied(src, e), rest);
    } else {
      assert src[0..] == src;
    }
  }

  // ----- edits that move no byte -----

  predicate Moves(src: bytes, e: Edit) {
    InBounds(src, e) && src[e.start..e.end] != e.replacement
  }

  function MovingEdits(src: bytes, edits: seq<Edit>): nat {
    if edits == [] then 0
    else MovingEdits(src, edits[..|edits| - 1]) + if Moves(src, edits[|edits| - 1]) then 1 else 0
  }

  method ChangedEditCount(src: bytes, edits: seq<Edit>) returns (n: nat)
    ensures n == MovingEdits(src, edits)
  {
    n := 0;
    for i := 0 to |edits|
      invariant n == MovingEdits(src, edits[..i])
    {
      var e := edits[i];
      assert edits[..i + 1][..i] == edits[..i];
      if e.start > e.end || e.end > |src| {
        continue;
      }
      if src[e.start..e.end] != e.replacement {
        n := n + 1;
      }
    }
    assert edits[..|edits|] == edits;
  }

  /** When no edit moves a byte, the output is the source. */
  lemma NoMoveIsIdentity(src: bytes, edits: seq<Edit>)
    requires AllInBounds(src, edits) && !Overlapping(edits) && MovingEdits(src, edits) == 0
    ensures RightToLeft(src, edits) == src
  {
    ApartIffNotOverlapping(src, edits);
    ForwardIsRightToLeft(src, edits);
    NoMoveForward(src, edits, 0);
    assert src[0..] == src;
  }

  lemma {:induction false} NoMoveForward(src: bytes, edits: seq<Edit>, prev: nat)
    requires AllInBounds(src, edits) && PairwiseApart(edits) && MovingEdits(src, edits) == 0 && prev <= |src|
    requires edits != [] ==> prev <= edits[|edits| - 1].start
    ensures Forward(src, edits, prev) == src[prev..]
    decreases |edits|
  {
    hide Forward, MovingEdits;
    ForwardStep(src, edits, prev);
    if edits != [] {
      var n := |edits| - 1;
      var e := edits[n];
      assert InBounds(src, edits[n]);
      LastMovesNothing(src, edits);
      NoMoveForward(src, edits[..n], e.end);
      Rejoined(src, prev, e.start, e.end);
    }
  }

  lemma LastMovesNothing(src: bytes, edits: seq<Edit>)
    requires edits != [] && MovingEdits(src, edits) == 0
    ensures MovingEdits(src, edits[..|edits| - 1]) == 0 && !Moves(src, edits[|edits| - 1])
  {
  }

  lemma Rejoined(src: bytes, a: nat, b: nat, c: nat)
    requires a <= b <= c <= |src|
    ensures src[a..] == src[a..b] + src[b..c] + src[c..]
  {
  }

  // ----- grouping matches by file -----

  /** One match with its replacement. */
  datatype Found = Found(path: bytes, edit: Edit)

  predicate Intersect(a: Edit, b: Edit) {
    a.start < b.end && b.start < a.end
  }

  predicate Descending(edits: seq<Edit>) {
    forall i, j | 0 <= i < j < |edits| :: edits[i].start >= edits[j].start
  }

  predicate Permuted(a: seq<Edit>, b: seq<Edit>) {
    multiset(a) == multiset(b)
  }

  function EditsOf(found: seq<Found>, path: bytes): seq<Edit> {
    if found == [] then []
    else EditsOf(found[..|found| - 1], path) + if found[|found| - 1].path == path then [found[|found| - 1].edit] else []
  }

  method InsertDescending(edits: seq<Edit>, e: Edit) returns (out: seq<Edit>)
    requires Descending(edits)
    ensures Descending(out) && Permuted(out, edits + [e])
  {
    var k := |edits|;
    while k > 0 && edits[k - 1].start < e.start
      invariant 0 <= k <= |edits| && forall j | k <= j < |edits| :: edits[j].start < e.start
    {
      hide Descending, Permuted;
      k := k - 1;
    }
    hide Descending, Permuted;
    out := edits[..k] + [e] + edits[k..];
    InsertedDescending(edits, e, k);
    InsertedPermuted(edits, e, k);
  }

  lemma InsertedPermuted(edits: seq<Edit>, e: Edit, k: nat)
    requires k <= |edits|
    ensures Permuted(edits[..k] + [e] + edits[k..], edits + [e])
  {
    assert edits == edits[..k] + edits[k..];
  }

  lemma InsertedDescending(edits: seq<Edit>, e: Edit, k: nat)
    requires Descending(edits) && k <= |edits| && (k > 0 ==> edits[k - 1].start >= e.start)
    requires forall j | k <= j < |edits| :: edits[j].start < e.start
    ensures Descending(edits[..k] + [e] + edits[k..])
  {
  }

  method SortDescending(edits: seq<Edit>) returns (out: seq<Edit>)
    ensures Descending(out) && Permuted(out, edits)
  {
    out := [];
    for i := 0 to |edits|
      invariant Descending(out) && Permuted(out, edits[..i])
    {
      hide Descending;
      assert edits[..i + 1] == edits[..i] + [edits[i]];
      out := InsertDescending(out, edits[i]);
    }
    assert edits[..|edits|] == edits;
  }

  /** The matches' edits, file by file, in the order the matches came. */
  method GroupByFile(found: seq<Found>) returns (lists: map<bytes, seq<Edit>>)
    ensures forall p :: p in lists <==> EditsOf(found, p) != []
    ensures forall p | p in lists :: lists[p] == EditsOf(found, p)
  {
    lists := map[];
    for i := 0 to |found|
      invariant forall p :: p in lists <==> EditsOf(found[..i], p) != []
      invariant forall p | p in lists :: lists[p] == EditsOf(found[..i], p)
    {
      var f := found[i];
      GroupStep(found, i);
      hide EditsOf;
      var had := if f.path in lists then lists[f.path] else [];
      lists := lists[f.path := had + [f.edit]];
    }
    assert found[..|found|] == found;
  }

  lemma GroupStep(found: seq<Found>, i: nat)
    requires i < |found|
    ensures forall p: bytes :: EditsOf(found[..i + 1], p)
                               == EditsOf(found[..i], p) + if found[i].path == p then [found[i].edit] else []
  {
    assert found[..i + 1][..i] == found[..i];
  }

  /** A file's sorted edits. */
  ghost predicate SortedOf(found: seq<Found>, p: bytes, s: seq<Edit>) {
    Descending(s) && Permuted(s, EditsOf(found, p))
  }

  ghost predicate Accepted(found: seq<Found>, p: bytes, s: seq<Edit>) {
    SortedOf(found, p, s) && !Overlapping(s)
  }

  ghost predicate Refused(found: seq<Found>, p: bytes) {
    exists s :: SortedOf(found, p, s) && Overlapping(s)
  }

  /** Groups the matches by file, sorts each file's edits, and refuses whole files with an overlap. */
  method BuildFileEdits(found: seq<Found>) returns (byFile: map<bytes, seq<Edit>>, refused: set<bytes>)
    ensures forall p :: p in byFile || p in refused <==> EditsOf(found, p) != []
    ensures forall p | p in byFile :: p !in refused && Accepted(found, p, byFile[p])
    ensures forall p | p in refused :: Refused(found, p)
  {
    var lists := GroupByFile(found);
    byFile, refused := map[], {};
    var todo := lists.Keys;
    while todo != {}
      invariant todo <= lists.Keys
      invariant forall p :: p in byFile || p in refused <==> p in lists && p !in todo
      invariant forall p | p in byFile :: p !in refused && Accepted(found, p, byFile[p])
      invariant forall p | p in refused :: Refused(found, p)
      decreases |todo|
    {
      hide EditsOf, Descending, Permuted, Overlapping, Accepted, Refused;
      var p :| p in todo;
      todo := todo - {p};
      var s := SortDescending(lists[p]);
      var clash := HasOverlap(s);
      Judge(found, p, s);
      if clash {
        refused := refused + {p};
      } else {
        byFile := byFile[p := s];
      }
    }
  }

  lemma Judge(found: seq<Found>, p: bytes, s: seq<Edit>)
    requires Descending(s) && Permuted(s, EditsOf(found, p))
    ensures if Overlapping(s) then Refused(found, p) else Accepted(found, p, s)
  {
    assert SortedOf(found, p, s);
  }

  /** Two of the edits, or one of them twice, intersect. */
  ghost predicate Clash(edits: multiset<Edit>) {
    exists a, b :: multiset{a, b} <= edits && Intersect(a, b)
  }

  function Without(s: seq<Edit>, x: nat): seq<Edit>
    requires x < |s|
  {
    s[..x] + s[x + 1..]
  }

  lemma TakenOut(s: seq<Edit>, x: nat)
    requires x < |s|
    ensures multiset(s) == multiset(Without(s, x)) + multiset{s[x]}
  {
    assert s == s[..x] + [s[x]] + s[x + 1..];
  }

  lemma StillThere(s: seq<Edit>, x: nat, b: Edit) returns (y: nat)
    requires x < |s| && b in Without(s, x)
    ensures y < |s| && y != x && s[y] == b
  {
    var k :| 0 <= k < |s| - 1 && Without(s, x)[k] == b;
    y := if k < x then k else k + 1;
  }

  lemma PairBelow(m: multiset<Edit>, rest: multiset<Edit>, a: Edit, b: Edit)
    requires m == rest + multiset{a}
    ensures multiset{a, b} <= m <==> b in rest
  {
    if multiset{a, b} <= m {
      assert multiset{a, b}[b] <= m[b];
    }
  }

  lemma PairIsClash(s: seq<Edit>, i: nat, j: nat)
    requires i < j < |s| && Intersect(s[i], s[j])
    ensures Clash(multiset(s))
  {
    TakenOut(s, i);
    assert Without(s, i)[j - 1] == s[j];
    PairBelow(multiset(s), multiset(Without(s, i)), s[i], s[j]);
  }

  lemma ClashIsPair(s: seq<Edit>) returns (i: nat, j: nat)
    requires Clash(multiset(s))
    ensures i < j < |s| && (Intersect(s[i], s[j]) || Intersect(s[j], s[i]))
  {
    var a, b :| multiset{a, b} <= multiset(s) && Intersect(a, b);
    assert multiset{a, b}[a] >= 1;
    assert a in multiset(s);
    var x :| 0 <= x < |s| && s[x] == a;
    hide Intersect, Without;
    TakenOut(s, x);
    PairBelow(multiset(s), multiset(Without(s, x)), a, b);
    var y := StillThere(s, x, b);
    i, j := if x < y then x else y, if x < y then y else x;
  }

  // ----- what the verdict depends on -----

  predicate Empty(e: Edit) {
    e.start == e.end
  }

  predicate Forwards(edits: multiset<Edit>) {
    forall e | e in edits :: e.start <= e.end
  }

  /** `a` is an insertion at the start of the rewrite `b`. */
  predicate TiedPair(a: Edit, b: Edit) {
    a.start == a.end == b.start < b.end
  }

  ghost predicate Tied(edits: multiset<Edit>) {
    exists a, b :: a in edits && b in edits && TiedPair(a, b)
  }

  lemma {:induction false} NeighboursApart(s: seq<Edit>, i: nat, j: nat)
    requires !Overlapping(s) && i < j < |s| && forall k | 0 <= k < |s| :: s[k].start <= s[k].end
    ensures s[j].end <= s[i].start
    decreases j - i
  {
    assert s[j].end <= s[j - 1].start;
    if i < j - 1 {
      NeighboursApart(s, i, j - 1);
    }
  }

  /** Two edits that intersect are found in every sorted order. */
  lemma ClashOverlaps(s: seq<Edit>)
    requires Forwards(multiset(s)) && Clash(multiset(s))
    ensures Overlapping(s)
  {
    if !Overlapping(s) {
      var i, j := ClashIsPair(s);
      forall k | 0 <= k < |s| ensures s[k].start <= s[k].end {
        assert s[k] in multiset(s);
      }
      NeighboursApart(s, i, j);
    }
  }

  /** What is found in a sorted list: two edits that intersect, or a rewrite right behind an insertion tied to it. */
  lemma OverlapIs(s: seq<Edit>) returns (i: nat)
    requires Descending(s) && Forwards(multiset(s)) && Overlapping(s)
    ensures 0 < i < |s| && (Clash(multiset(s)) || TiedPair(s[i - 1], s[i]))
  {
    hide Clash, Forwards, TiedPair, Intersect;
    i :| 0 < i < |s| && s[i].end > s[i - 1].start;
    assert s[i - 1].start >= s[i].start;
    GoesForward(s, i - 1);
    hide *;
    IntersectOrTied(s[i - 1], s[i]);
    if Intersect(s[i - 1], s[i]) {
      PairIsClash(s, i - 1, i);
    }
  }

  lemma GoesForward(s: seq<Edit>, k: nat)
    requires k < |s| && Forwards(multiset(s))
    ensures s[k].start <= s[k].end
  {
    assert s[k] in multiset(s);
  }

  lemma IntersectOrTied(a: Edit, b: Edit)
    requires b.start <= a.start < b.end && a.start <= a.end
    ensures Intersect(a, b) || TiedPair(a, b)
  {
  }

  lemma TieAmong(s: seq<Edit>, i: nat)
    requires 0 < i < |s| && TiedPair(s[i - 1], s[i])
    ensures Tied(multiset(s))
  {
    assert s[i - 1] in multiset(s) && s[i] in multiset(s);
  }

  /** Where no insertion is tied to a rewrite, a file's sorted edits overlap exactly when two of them
      intersect, whatever order the sort gives edits that start together. */
  lemma OverlapIffClash(s: seq<Edit>)
    requires Descending(s) && Forwards(multiset(s)) && !Tied(multiset(s))
    ensures Overlapping(s) <==> Clash(multiset(s))
  {
    hide *;
    if Overlapping(s) {
      var i := OverlapIs(s);
      if TiedPair(s[i - 1], s[i]) {
        TieAmong(s, i);
      }
    } else if Clash(multiset(s)) {
      ClashOverlaps(s);
    }
  }

  /** Sorting by start leaves ties open; `insertionsFirst` settles them. */
  predicate Precedes(a: Edit, b: Edit, insertionsFirst: bool) {
    || a.start > b.start
    || (a.start == b.start && if insertionsFirst then Empty(a) || !Empty(b) else !Empty(a) || Empty(b))
  }

  predicate Settled(s: seq<Edit>, insertionsFirst: bool) {
    forall i, j | 0 <= i < j < |s| :: Precedes(s[i], s[j], insertionsFirst)
  }

  /** Both ways of settling ties are orders a sort may give. */
  lemma {:induction false} SettledOrder(edits: seq<Edit>, insertionsFirst: bool) returns (s: seq<Edit>)
    ensures Settled(s, insertionsFirst) && Descending(s) && Permuted(s, edits)
    decreases |edits|
  {
    if edits == [] {
      s := [];
    } else {
      var n := |edits| - 1;
      var sorted := SettledOrder(edits[..n], insertionsFirst);
      var k := 0;
      while k < |sorted| && Precedes(sorted[k], edits[n], insertionsFirst)
        invariant k <= |sorted| && forall j | 0 <= j < k :: Precedes(sorted[j], edits[n], insertionsFirst)
      {
        k := k + 1;
      }
      s := sorted[..k] + [edits[n]] + sorted[k..];
      SettledInsert(sorted, edits[n], k, insertionsFirst);
      InsertedPermuted(sorted, edits[n], k);
      assert edits == edits[..n] + [edits[n]];
    }
  }

  lemma SettledInsert(s: seq<Edit>, e: Edit, k: nat, insertionsFirst: bool)
    requires Settled(s, insertionsFirst) && k <= |s|
    requires forall j | 0 <= j < k :: Precedes(s[j], e, insertionsFirst)
    requires k < |s| ==> !Precedes(s[k], e, insertionsFirst)
    ensures Settled(s[..k] + [e] + s[k..], insertionsFirst)
    ensures Descending(s[..k] + [e] + s[k..])
  {
    forall j | k <= j < |s| ensures Precedes(e, s[j], insertionsFirst) {
      assert j > k ==> Precedes(s[k], s[j], insertionsFirst);
    }
    var t := s[..k] + [e] + s[k..];
    forall i, j | 0 <= i < j < |t| ensures Precedes(t[i], t[j], insertionsFirst) {
      if i < k {
        assert j < k || j == k || t[j] == s[j - 1];
      } else if i > k {
        assert t[i] == s[i - 1] && t[j] == s[j - 1];
      }
    }
  }

  /** With rewrites first a tie is no overlap. */
  lemma RewritesFirst(s: seq<Edit>)
    requires Settled(s, false) && Descending(s) && Forwards(multiset(s)) && Overlapping(s)
    ensures Clash(multiset(s))
  {
    var i := OverlapIs(s);
    assert Precedes(s[i - 1], s[i], false);
  }

  /** With insertions first a tie is an overlap. */
  lemma InsertionsFirst(s: seq<Edit>)
    requires Settled(s, true) && Forwards(multiset(s)) && Tied(multiset(s))
    ensures Overlapping(s)
  {
    var a, b :| a in multiset(s) && b in multiset(s) && TiedPair(a, b);
    var i :| 0 <= i < |s| && s[i] == a;
    var j :| 0 <= j < |s| && s[j] == b;
    assert j < i ==> Precedes(s[j], s[i], true);
    TieFound(s, i, j);
  }

  lemma {:induction false} TieFound(s: seq<Edit>, i: nat, j: nat)
    requires Settled(s, true) && i < j < |s| && TiedPair(s[i], s[j]) && Forwards(multiset(s))
    ensures Overlapping(s)
    decreases j - i
  {
    assert Precedes(s[i], s[i + 1], true);
    assert i + 1 < j ==> Precedes(s[i + 1], s[j], true);
    assert s[i + 1] in multiset(s);
    if Empty(s[i + 1]) {
      TieFound(s, i + 1, j);
    } else {
      assert s[i + 1].end > s[i].start;
    }
  }

  /** Some sort of a file's edits gets the file refused exactly when two edits intersect or an insertion is
      tied to a rewrite; some sort gets it accepted exactly when no two intersect. */
  lemma RefusedIffClash(found: seq<Found>, p: bytes)
    requires Forwards(multiset(EditsOf(found, p)))
    ensures Refused(found, p) <==> Clash(multiset(EditsOf(found, p))) || Tied(multiset(EditsOf(found, p)))
    ensures (exists s :: Accepted(found, p, s)) <==> !Clash(multiset(EditsOf(found, p)))
  {
    var edits := EditsOf(found, p);
    var first := SettledOrder(edits, true);
    var last := SettledOrder(edits, false);
    hide Descending, Overlapping, Clash, EditsOf, Settled, Tied, Forwards;
    assert SortedOf(found, p, first) && SortedOf(found, p, last);
    if Clash(multiset(edits)) {
      ClashOverlaps(first);
    } else if Tied(multiset(edits)) {
      InsertionsFirst(first);
    }
    forall s | SortedOf(found, p, s)
      ensures Overlapping(s) ==> Clash(multiset(edits)) || Tied(multiset(edits))
      ensures Clash(multiset(edits)) ==> Overlapping(s)
    {
      Bounds(s);
    }
    if Overlapping(last) {
      RewritesFirst(last);
    } else {
      assert Accepted(found, p, last);
    }
  }

  lemma Bounds(s: seq<Edit>)
    requires Descending(s) && Forwards(multiset(s))
    ensures Overlapping(s) ==> Clash(multiset(s)) || Tied(multiset(s))
    ensures Clash(multiset(s)) ==> Overlapping(s)
  {
    hide Descending, Overlapping, Clash, Tied, Forwards;
    if Clash(multiset(s)) {
      ClashOverlaps(s);
    } else if !Tied(multiset(s)) {
      OverlapIffClash(s);
    }
  }

  /** Every sort of a file's edits gets the same verdict. */
  ghost predicate VerdictFixed(found: seq<Found>, p: bytes) {
    forall s, t | SortedOf(found, p, s) && SortedOf(found, p, t) :: Overlapping(s) <==> Overlapping(t)
  }

  /** The verdict depends on how the sort settles ties exactly when an insertion is tied to a rewrite and
      no two edits intersect. */
  lemma VerdictFixedIff(found: seq<Found>, p: bytes)
    requires Forwards(multiset(EditsOf(found, p)))
    ensures VerdictFixed(found, p) <==> !Tied(multiset(EditsOf(found, p))) || Clash(multiset(EditsOf(found, p)))
  {
    var edits := EditsOf(found, p);
    RefusedIffClash(found, p);
    hide Descending, Overlapping, Clash, EditsOf, Tied, Forwards;
    if Tied(multiset(edits)) && !Clash(multiset(edits)) {
      var s :| SortedOf(found, p, s) && Overlapping(s);
      var t :| Accepted(found, p, t);
      assert !VerdictFixed(found, p);
    } else {
      forall s, t | SortedOf(found, p, s) && SortedOf(found, p, t) ensures Overlapping(s) <==> Overlapping(t) {
        Bounds(s);
        Bounds(t);
      }
    }
  }

  /** Such a file: the two orders a sort may give its edits are judged differently. */
  lemma InsertionDependsOnSortOrder(r: bytes, t: bytes)
    ensures var insertion, rewrite := Edit(5, 5, r), Edit(5, 9, t);
            && Descending([insertion, rewrite]) && Descending([rewrite, insertion])
            && Overlapping([insertion, rewrite]) && !Overlapping([rewrite, insertion])
  {
    var s := [Edit(5, 5, r), Edit(5, 9, t)];
    assert s[1].end > s[0].start;
  }

  // ----- what the output depends on -----

  /** Insertions at one place may be made in either order. */
  ghost predicate InsertionsCommute(edits: multiset<Edit>) {
    forall a, b | a in edits && b in edits && Empty(a) && Empty(b) && a.start == b.start ::
      a.replacement + b.replacement == b.replacement + a.replacement
  }

  ghost predicate OutputFixed(src: bytes, found: seq<Found>, p: bytes) {
    forall s, t | Accepted(found, p, s) && Accepted(found, p, t) :: RightToLeft(src, s) == RightToLeft(src, t)
  }

  /** A list some sort may give, ready to be applied to `buf`. */
  predicate Ready(buf: bytes, s: seq<Edit>) {
    Descending(s) && PairwiseApart(s) && AllInBounds(buf, s)
  }

  lemma ReadyNext(buf: bytes, s: seq<Edit>)
    requires Ready(buf, s) && s != []
    ensures Ready(Applied(buf, s[0]), s[1..])
  {
    assert InBounds(buf, s[0]);
    forall i | 0 <= i < |s[1..]| ensures InBounds(Applied(buf, s[0]), s[1..][i]) {
      assert s[1..][i] == s[i + 1] && InBounds(buf, s[i + 1]);
    }
  }

  /** Two insertions at one place, made in the two orders. */
  lemma TwoInsertions(buf: bytes, a: Edit, b: Edit)
    requires InBounds(buf, a) && Empty(a) && Empty(b) && a.start == b.start
    ensures Applied(Applied(buf, a), b) == buf[..a.start] + (b.replacement + a.replacement) + buf[a.start..]
  {
    var at := a.start;
    var one := Applied(buf, a);
    assert one == buf[..at] + a.replacement + buf[at..];
    assert one[..at] == buf[..at] && one[at..] == a.replacement + buf[at..];
  }

  lemma SwapInsertions(buf: bytes, a: Edit, b: Edit, rest: seq<Edit>)
    requires InBounds(buf, a) && Empty(a) && Empty(b) && a.start == b.start
    requires a.replacement + b.replacement == b.replacement + a.replacement
    ensures RightToLeft(buf, [a] + ([b] + rest)) == RightToLeft(buf, [b] + ([a] + rest))
  {
    hide Applied;
    TwoInsertions(buf, a, b);
    TwoInsertions(buf, b, a);
    FirstApplied(buf, a, [b] + rest);
    FirstApplied(Applied(buf, a), b, rest);
    FirstApplied(buf, b, [a] + rest);
    FirstApplied(Applied(buf, b), a, rest);
  }

  lemma FirstApplied(buf: bytes, e: Edit, rest: seq<Edit>)
    ensures RightToLeft(buf, [e] + rest) == RightToLeft(Applied(buf, e), rest)
  {
    hide Applied;
    assert ([e] + rest)[1..] == rest;
  }

  predicate OneInsertionPoint(s: seq<Edit>, at: nat, k: nat) {
    forall i | 0 <= i < k && i < |s| :: Empty(s[i]) && s[i].start == at
  }

  /** An insertion behind others at its place may be made first. */
  lemma {:induction false} InsertionFirst(buf: bytes, s: seq<Edit>, k: nat)
    requires k < |s| && OneInsertionPoint(s, s[k].start, k + 1) && InsertionsCommute(multiset(s)) && s[k].start <= |buf|
    ensures RightToLeft(buf, s) == RightToLeft(buf, [s[k]] + Without(s, k))
    decreases k
  {
    hide *;
    var e := s[k];
    PulledOut(s, k);
    if k > 0 {
      var a, rest := s[0], s[1..];
      FirstApplied(buf, a, rest);
      FewerCommute(s);
      AppliedReaches(buf, a);
      InsertionFirst(Applied(buf, a), rest, k - 1);
      FirstApplied(buf, a, [e] + Without(rest, k - 1));
      PairCommutes(s, 0, k);
      SwapInsertions(buf, a, e, Without(rest, k - 1));
    }
  }

  lemma PulledOut(s: seq<Edit>, k: nat)
    requires k < |s| && OneInsertionPoint(s, s[k].start, k + 1)
    ensures Empty(s[k]) && (k == 0 ==> [s[k]] + Without(s, k) == s)
    ensures k > 0 ==>
              && s == [s[0]] + s[1..] && s[1..][k - 1] == s[k] && Empty(s[0]) && s[0].start == s[k].start
              && OneInsertionPoint(s[1..], s[k].start, k) && Without(s, k) == [s[0]] + Without(s[1..], k - 1)
  {
    if k > 0 {
      assert forall i | 0 <= i < k :: s[1..][i] == s[i + 1];
    }
  }

  lemma AppliedReaches(buf: bytes, e: Edit)
    requires Empty(e) && e.start <= |buf|
    ensures InBounds(buf, e) && |Applied(buf, e)| >= e.start
  {
  }

  lemma FewerCommute(s: seq<Edit>)
    requires s != [] && InsertionsCommute(multiset(s))
    ensures InsertionsCommute(multiset(s[1..]))
  {
    forall a | a in multiset(s[1..]) ensures a in multiset(s) {
      assert s == [s[0]] + s[1..];
    }
  }

  lemma PairCommutes(s: seq<Edit>, i: nat, j: nat)
    requires InsertionsCommute(multiset(s)) && i < |s| && j < |s| && Empty(s[i]) && Empty(s[j]) && s[i].start == s[j].start
    ensures s[i].replacement + s[j].replacement == s[j].replacement + s[i].replacement
  {
    assert s[i] in multiset(s) && s[j] in multiset(s);
  }

  /** Where an accepted sort may put the edit another one puts first: behind insertions at its place, itself one. */
  lemma FirstAmong(s: seq<Edit>, t: seq<Edit>) returns (k: nat)
    requires Descending(s) && PairwiseApart(s) && Descending(t) && PairwiseApart(t) && Permuted(s, t) && s != []
    requires Forwards(multiset(s))
    ensures k < |t| && t[k] == s[0] && (k == 0 || OneInsertionPoint(t, s[0].start, k + 1))
  {
    assert s[0] in multiset(s);
    k :| 0 <= k < |t| && t[k] == s[0];
    hide Descending, PairwiseApart, Forwards, Permuted;
    if k > 0 {
      AheadOf(s, t, k, 0);
      forall i | 0 <= i < k + 1 ensures Empty(t[i]) && t[i].start == s[0].start {
        if i < k {
          AheadOf(s, t, k, i);
        }
      }
    }
  }

  /** What one sort puts ahead of the edit another puts first is an insertion at its place, and so is that edit. */
  lemma AheadOf(s: seq<Edit>, t: seq<Edit>, k: nat, i: nat)
    requires Descending(s) && PairwiseApart(s) && Descending(t) && PairwiseApart(t) && Permuted(s, t) && s != []
    requires Forwards(multiset(s)) && i < k < |t| && t[k] == s[0]
    ensures Empty(t[i]) && t[i].start == s[0].start && Empty(s[0])
  {
    assert t[i] in multiset(t);
    assert t[i] in multiset(s) && s[0] in multiset(s);
    var j :| 0 <= j < |s| && s[j] == t[i];
    assert t[k].end <= t[i].start;
    if j > 0 {
      assert s[j].end <= s[0].start;
    }
  }

  /** Sorts of commuting edits make the same output. */
  lemma {:induction false} CommutingAgree(buf: bytes, s: seq<Edit>, t: seq<Edit>)
    requires Ready(buf, s) && Ready(buf, t) && Permuted(s, t) && InsertionsCommute(multiset(s)) && Forwards(multiset(s))
    ensures RightToLeft(buf, s) == RightToLeft(buf, t)
    decreases |s|
  {
    hide Applied, InsertionsCommute, RightToLeft, Descending, PairwiseApart, AllInBounds;
    if s == [] {
      assert |multiset(t)| == 0;
    } else {
      var k := FirstAmong(s, t);
      var e, t' := s[0], [t[k]] + Without(t, k);
      FirstInBounds(buf, s);
      if k > 0 {
        InsertionFirst(buf, t, k);
      } else {
        assert t == t';
      }
      MovedIsReady(buf, t, k);
      assert s == [e] + s[1..];
      FirstApplied(buf, e, s[1..]);
      FirstApplied(buf, e, Without(t, k));
      ReadyNext(buf, s);
      ReadyNext(buf, t');
      FewerCommute(s);
      RestPermuted(s, t, k);
      CommutingAgree(Applied(buf, e), s[1..], Without(t, k));
    }
  }

  lemma FirstInBounds(buf: bytes, s: seq<Edit>)
    requires Ready(buf, s) && s != []
    ensures s[0].start <= |buf|
  {
    assert InBounds(buf, s[0]);
  }

  lemma MovedIsReady(buf: bytes, t: seq<Edit>, k: nat)
    requires Ready(buf, t) && k < |t| && (k == 0 || OneInsertionPoint(t, t[k].start, k + 1))
    ensures Ready(buf, [t[k]] + Without(t, k)) && ([t[k]] + Without(t, k))[1..] == Without(t, k)
  {
    var t', w := [t[k]] + Without(t, k), Without(t, k);
    assert forall i | 0 <= i < |w| :: w[i] == t[if i < k then i else i + 1];
    forall i, j | 0 <= i < j < |t'| ensures t'[i].start >= t'[j].start && t'[j].end <= t'[i].start {
      assert t'[j] == w[j - 1];
      if i > 0 {
        assert t'[i] == w[i - 1];
      }
    }
    forall i | 0 <= i < |t'| ensures InBounds(buf, t'[i]) {
      assert i > 0 ==> t'[i] == w[i - 1];
      assert InBounds(buf, t[k]) && (i > 0 ==> InBounds(buf, t[if i - 1 < k then i - 1 else i]));
    }
  }

  lemma RestPermuted(s: seq<Edit>, t: seq<Edit>, k: nat)
    requires Permuted(s, t) && s != [] && k < |t| && t[k] == s[0] && Forwards(multiset(s))
    ensures Permuted(s[1..], Without(t, k)) && Forwards(multiset(s[1..]))
  {
    TakenOut(t, k);
    hide Without;
    FirstTaken(s);
    OneLess(multiset(s), multiset(s[1..]), multiset(Without(t, k)), s[0]);
    forall e | e in multiset(s[1..]) ensures e in multiset(s) {}
  }

  lemma FirstTaken(s: seq<Edit>)
    requires s != []
    ensures multiset(s) == multiset(s[1..]) + multiset{s[0]}
  {
    assert s == [s[0]] + s[1..];
  }

  lemma OneLess(m: multiset<Edit>, a: multiset<Edit>, b: multiset<Edit>, e: Edit)
    requires m == a + multiset{e} == b + multiset{e}
    ensures a == b
  {
    assert a == m - multiset{e} && b == m - multiset{e};
  }

  // Two insertions that do not commute give two outputs.

  lemma NothingApplied(buf: bytes)
    ensures RightToLeft(buf, []) == buf
  {
  }

  lemma AppliedBefore(left: bytes, right: bytes, e: Edit)
    requires InBounds(left, e)
    ensures Applied(left + right, e) == Applied(left, e) + right
  {
    var all := left + right;
    assert all[..e.start] == left[..e.start] && all[e.end..] == left[e.end..] + right;
  }

  /** What stands behind every edit is carried along. */
  lemma {:induction false} BehindKept(left: bytes, right: bytes, s: seq<Edit>)
    requires Ready(left, s)
    ensures RightToLeft(left + right, s) == RightToLeft(left, s) + right
    decreases |s|
  {
    hide Descending, PairwiseApart, Applied, RightToLeft;
    if s == [] {
      NothingApplied(left);
      NothingApplied(left + right);
    } else {
      ReadyNext(left, s);
      assert InBounds(left, s[0]);
      AppliedBefore(left, right, s[0]);
      BehindKept(Applied(left, s[0]), right, s[1..]);
      assert s == [s[0]] + s[1..];
      FirstApplied(left, s[0], s[1..]);
      FirstApplied(left + right, s[0], s[1..]);
    }
  }

  /** The list with two neighbours swapped. */
  function Swapped(s: seq<Edit>, i: nat): seq<Edit>
    requires i + 1 < |s|
  {
    s[i := s[i + 1]][i + 1 := s[i]]
  }

  /** Two neighbouring insertions at one place that do not commute make two outputs. */
  lemma {:induction false} NeighboursDiffer(buf: bytes, s: seq<Edit>, i: nat)
    requires Ready(buf, s) && i + 1 < |s| && Empty(s[i]) && Empty(s[i + 1]) && s[i].start == s[i + 1].start
    requires s[i].replacement + s[i + 1].replacement != s[i + 1].replacement + s[i].replacement
    ensures RightToLeft(buf, s) != RightToLeft(buf, Swapped(s, i))
    decreases i
  {
    hide *;
    if i > 0 {
      ReadyNext(buf, s);
      SwappedBehind(s, i);
      FirstApplied(buf, s[0], s[1..]);
      FirstApplied(buf, s[0], Swapped(s[1..], i - 1));
      NeighboursDiffer(Applied(buf, s[0]), s[1..], i - 1);
    } else {
      var a, b, rest := s[0], s[1], s[2..];
      SwappedFront(s);
      FirstInBounds(buf, s);
      FrontInsertions(buf, a, b, rest);
      FrontInsertions(buf, b, a, rest);
      RestIsReady(buf, s);
      BehindDiffers(buf[..a.start], a.replacement, b.replacement, buf[a.start..], rest);
    }
  }

  lemma SwappedBehind(s: seq<Edit>, i: nat)
    requires 0 < i && i + 1 < |s|
    ensures s == [s[0]] + s[1..] && Swapped(s, i) == [s[0]] + Swapped(s[1..], i - 1)
    ensures s[1..][i - 1] == s[i] && s[1..][i] == s[i + 1]
  {
  }

  lemma SwappedFront(s: seq<Edit>)
    requires 1 < |s|
    ensures s == [s[0]] + ([s[1]] + s[2..]) && Swapped(s, 0) == [s[1]] + ([s[0]] + s[2..])
  {
  }

  lemma FrontInsertions(buf: bytes, a: Edit, b: Edit, rest: seq<Edit>)
    requires a.start <= |buf| && Empty(a) && Empty(b) && a.start == b.start
    ensures RightToLeft(buf, [a] + ([b] + rest))
         == RightToLeft(buf[..a.start] + (b.replacement + a.replacement) + buf[a.start..], rest)
  {
    hide Applied, RightToLeft;
    AppliedReaches(buf, a);
    TwoInsertions(buf, a, b);
    FirstApplied(buf, a, [b] + rest);
    FirstApplied(Applied(buf, a), b, rest);
  }

  lemma RestIsReady(buf: bytes, s: seq<Edit>)
    requires Ready(buf, s) && |s| >= 2 && s[0].start <= |buf| && s[1].start == s[0].start && Empty(s[1])
    ensures Ready(buf[..s[0].start], s[2..])
  {
    forall i | 0 <= i < |s[2..]| ensures InBounds(buf[..s[0].start], s[2..][i]) {
      assert InBounds(buf, s[i + 2]);
    }
  }

  lemma BehindDiffers(left: bytes, x: bytes, y: bytes, right: bytes, rest: seq<Edit>)
    requires Ready(left, rest) && x + y != y + x
    ensures RightToLeft(left + (y + x) + right, rest) != RightToLeft(left + (x + y) + right, rest)
  {
    hide RightToLeft, Ready;
    BehindKept(left, (y + x) + right, rest);
    BehindKept(left, (x + y) + right, rest);
    var out := RightToLeft(left, rest);
    assert left + (y + x) + right == left + ((y + x) + right) && left + (x + y) + right == left + ((x + y) + right);
    var p, q := out + ((y + x) + right), out + ((x + y) + right);
    assert p[|out|..][..|x| + |y|] == y + x && q[|out|..][..|x| + |y|] == x + y;
  }

  // ----- the theorem -----

  lemma AcceptedIsReady(src: bytes, found: seq<Found>, p: bytes, s: seq<Edit>)
    requires Accepted(found, p, s) && AllInBounds(src, EditsOf(found, p))
    ensures Ready(src, s) && Forwards(multiset(s)) && Permuted(s, EditsOf(found, p))
  {
    hide EditsOf;
    var edits := EditsOf(found, p);
    forall e | e in multiset(s) ensures InBounds(src, e) {
      assert e in multiset(edits);
      var i :| 0 <= i < |edits| && edits[i] == e;
      assert InBounds(src, edits[i]);
    }
    forall i | 0 <= i < |s| ensures InBounds(src, s[i]) {
      assert s[i] in multiset(s);
    }
    ApartIffNotOverlapping(src, s);
  }

  lemma SwappedPermuted(s: seq<Edit>, i: nat)
    requires i + 1 < |s|
    ensures multiset(Swapped(s, i)) == multiset(s)
  {
  }

  lemma ReadyIsAccepted(src: bytes, found: seq<Found>, p: bytes, s: seq<Edit>)
    requires Ready(src, s) && Permuted(s, EditsOf(found, p))
    ensures Accepted(found, p, s)
  {
    ApartIffNotOverlapping(src, s);
    hide EditsOf, Permuted;
  }

  /** Swapping two neighbouring insertions at one place gives another accepted sort. */
  lemma SwappedAccepted(src: bytes, found: seq<Found>, p: bytes, s: seq<Edit>, i: nat)
    requires Accepted(found, p, s) && AllInBounds(src, EditsOf(found, p))
    requires i + 1 < |s| && Empty(s[i]) && Empty(s[i + 1]) && s[i].start == s[i + 1].start
    ensures Accepted(found, p, Swapped(s, i))
  {
    hide EditsOf, Accepted, Ready, Swapped;
    AcceptedIsReady(src, found, p, s);
    SwappedReady(src, s, i);
    SwappedPermuted(s, i);
    ReadyIsAccepted(src, found, p, Swapped(s, i));
  }

  lemma SwappedReady(src: bytes, s: seq<Edit>, i: nat)
    requires Ready(src, s) && i + 1 < |s| && Empty(s[i]) && Empty(s[i + 1]) && s[i].start == s[i + 1].start
    ensures Ready(src, Swapped(s, i))
  {
    var t := Swapped(s, i);
    forall x, y | 0 <= x < y < |t| ensures t[x].start >= t[y].start && t[y].end <= t[x].start {
      var x', y' := if x == i then i + 1 else if x == i + 1 then i else x, if y == i then i + 1 else if y == i + 1 then i else y;
      assert t[x] == s[x'] && t[y] == s[y'];
    }
    forall x | 0 <= x < |t| ensures InBounds(src, t[x]) {
      assert InBounds(src, s[if x == i then i + 1 else if x == i + 1 then i else x]);
    }
  }

  /** Between two insertions at one place stand only insertions at that place. */
  lemma BetweenInsertions(s: seq<Edit>, i: nat, j: nat, x: nat)
    requires Descending(s) && PairwiseApart(s) && Forwards(multiset(s)) && i <= x <= j < |s|
    requires Empty(s[i]) && Empty(s[j]) && s[i].start == s[j].start
    ensures Empty(s[x]) && s[x].start == s[i].start
  {
    assert s[x] in multiset(s);
  }

  /** Somewhere between two insertions that do not commute, or after moving one beside the other, two neighbours
      make the output depend on the sort. */
  lemma {:induction false} TwoOutputs(src: bytes, found: seq<Found>, p: bytes, s: seq<Edit>, i: nat, j: nat)
    requires Accepted(found, p, s) && AllInBounds(src, EditsOf(found, p)) && i < j < |s|
    requires Empty(s[i]) && Empty(s[j]) && s[i].start == s[j].start
    requires s[i].replacement + s[j].replacement != s[j].replacement + s[i].replacement
    ensures !OutputFixed(src, found, p)
    decreases j - i
  {
    hide *;
    AcceptedIsReady(src, found, p, s);
    if i + 1 == j {
      SwappedAccepted(src, found, p, s, i);
      NeighboursDiffer(src, s, i);
      TwoMeanNotFixed(src, found, p, s, Swapped(s, i));
    } else {
      BetweenNow(src, s, i, j);
      SwappedAccepted(src, found, p, s, i);
      SwappedHolds(s, i, j);
      TwoOutputs(src, found, p, Swapped(s, i), i + 1, j);
    }
  }

  lemma TwoMeanNotFixed(src: bytes, found: seq<Found>, p: bytes, s: seq<Edit>, t: seq<Edit>)
    requires Accepted(found, p, s) && Accepted(found, p, t) && RightToLeft(src, s) != RightToLeft(src, t)
    ensures !OutputFixed(src, found, p)
  {
    hide Accepted, RightToLeft;
  }

  lemma SwappedHolds(s: seq<Edit>, i: nat, j: nat)
    requires i + 1 < j < |s|
    ensures |Swapped(s, i)| == |s| && Swapped(s, i)[i + 1] == s[i] && Swapped(s, i)[j] == s[j]
  {
  }

  lemma BetweenNow(src: bytes, s: seq<Edit>, i: nat, j: nat)
    requires Ready(src, s) && Forwards(multiset(s)) && i + 1 < j < |s|
    requires Empty(s[i]) && Empty(s[j]) && s[i].start == s[j].start
    ensures Empty(s[i + 1]) && s[i + 1].start == s[i].start
  {
    BetweenInsertions(s, i, j, i + 1);
  }

  /** Every accepted sort of a file's edits gives the same output exactly when two edits intersect, so that no sort
      is accepted, or the insertions at each place commute. */
  lemma OutputFixedIff(src: bytes, found: seq<Found>, p: bytes)
    requires AllInBounds(src, EditsOf(found, p))
    ensures OutputFixed(src, found, p) <==> Clash(multiset(EditsOf(found, p))) || InsertionsCommute(multiset(EditsOf(found, p)))
  {
    var edits := EditsOf(found, p);
    BoundedGoForwards(src, edits);
    RefusedIffClash(found, p);
    hide EditsOf, Clash, InsertionsCommute, RightToLeft, Accepted, Ready, Forwards;
    if InsertionsCommute(multiset(edits)) {
      forall s, t | Accepted(found, p, s) && Accepted(found, p, t) ensures RightToLeft(src, s) == RightToLeft(src, t) {
        AcceptedIsReady(src, found, p, s);
        AcceptedIsReady(src, found, p, t);
        CommutingAgree(src, s, t);
      }
    } else if !Clash(multiset(edits)) {
      var s :| Accepted(found, p, s);
      AcceptedIsReady(src, found, p, s);
      var i, j := NotCommuting(s);
      TwoOutputs(src, found, p, s, i, j);
    }
  }

  lemma BoundedGoForwards(src: bytes, edits: seq<Edit>)
    requires AllInBounds(src, edits)
    ensures Forwards(multiset(edits))
  {
    forall e | e in multiset(edits) ensures e.start <= e.end {
      var i :| 0 <= i < |edits| && edits[i] == e;
      assert InBounds(src, edits[i]);
    }
  }

  lemma NotCommuting(s: seq<Edit>) returns (i: nat, j: nat)
    requires !InsertionsCommute(multiset(s))
    ensures i < j < |s| && Empty(s[i]) && Empty(s[j]) && s[i].start == s[j].start
    ensures s[i].replacement + s[j].replacement != s[j].replacement + s[i].replacement
  {
    var a, b :| a in multiset(s) && b in multiset(s) && Empty(a) && Empty(b) && a.start == b.start
                && a.replacement + b.replacement != b.replacement + a.replacement;
    i :| 0 <= i < |s| && s[i] == a;
    j :| 0 <= j < |s| && s[j] == b;
    if j < i {
      i, j := j, i;
    }
  }

  /** Edits of distinct spans, as one file's matches have, hold no two insertions at one place. */
  lemma DistinctSpansCommute(edits: seq<Edit>)
    requires forall i, j | 0 <= i < j < |edits| :: (edits[i].start, edits[i].end) != (edits[j].start, edits[j].end)
    ensures InsertionsCommute(multiset(edits))
  {
    forall a, b | a in multiset(edits) && b in multiset(edits) && Empty(a) && Empty(b) && a.start == b.start
      ensures a.replacement + b.replacement == b.replacement + a.replacement
    {
      var i :| 0 <= i < |edits| && edits[i] == a;
      var j :| 0 <= j < |edits| && edits[j] == b;
    }
  }

  /** Two insertions at one place come out in the order of the sort. */
  lemma InsertionsCollide(src: bytes)
    ensures var x, y := Edit(0, 0, [0x78]), Edit(0, 0, [0x79]);
            && Descending([x, y]) && Descending([y, x]) && !Overlapping([x, y]) && !Overlapping([y, x])
            && RightToLeft(src, [x, y]) == [0x79, 0x78] + src && RightToLeft(src, [y, x]) == [0x78, 0x79] + src
  {
    var x, y := Edit(0, 0, [0x78]), Edit(0, 0, [0x79]);
    NothingApplied(src);
    assert [x] + ([y] + []) == [x, y] && [y] + ([x] + []) == [y, x];
    FrontInsertions(src, x, y, []);
    FrontInsertions(src, y, x, []);
    assert [0x79] + [0x78] == [0x79, 0x78];
    NothingApplied([0x79, 0x78] + src);
    NothingApplied([0x78, 0x79] + src);
    assert src[..0] + ([0x79] + [0x78]) + src[0..] == [0x79, 0x78] + src;
    assert src[..0] + ([0x78] + [0x79]) + src[0..] == [0x78, 0x79] + src;
  }
}
