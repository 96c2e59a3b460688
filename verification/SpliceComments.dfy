/**
 Edge recovery: the whitespace and the recorded comments standing at either end of the source region a
 rewrite replaces. Two inward walks alternate whitespace bytes and whole comment spans.
 */
module SpliceComments {
  import opened Bytes
  import opened Outcomes
  import opened SyntaxTree

  /** What stands at the edges of a replaced region. */
  datatype Edges = Edges(leadWS: bytes, leadComments: bytes, trailComments: bytes, trailWS: bytes)

  predicate NonEmptyIn(s: Range, lo: nat, hi: nat) {
    s.start < s.end && lo <= s.start && s.end <= hi
  }

  predicate AnyCommentIn(spans: seq<Range>, lo: nat, hi: nat) {
    exists i | 0 <= i < |spans| :: NonEmptyIn(spans[i], lo, hi)
  }

  /** The first recorded span that starts at `at` and ends by `hi`. */
  function SpanStartingAt(spans: seq<Range>, at: nat, hi: nat): (r: Option<Range>)
    ensures r.Some? ==> r.value in spans && r.value.start == at && NonEmptyIn(r.value, at, hi)
    ensures r.None? ==> forall s | s in spans :: s.start == at ==> !NonEmptyIn(s, at, hi)
  {
    if spans == [] then None
    else if spans[0].start == at && spans[0].end <= hi && spans[0].end > spans[0].start then Some(spans[0])
    else SpanStartingAt(spans[1..], at, hi)
  }

  /** The first recorded span that ends at `at` and starts no earlier than `lo`. */
  function SpanEndingAt(spans: seq<Range>, at: nat, lo: nat): (r: Option<Range>)
    ensures r.Some? ==> r.value in spans && r.value.end == at && NonEmptyIn(r.value, lo, at)
    ensures r.None? ==> forall s | s in spans :: s.end == at ==> !NonEmptyIn(s, lo, at)
  {
    if spans == [] then None
    else if spans[0].end == at && spans[0].start >= lo && spans[0].end > spans[0].start then Some(spans[0])
    else SpanEndingAt(spans[1..], at, lo)
  }

  /** Where the leading run that has reached `p` ends. */
  function LeadEnd(src: bytes, spans: seq<Range>, p: nat, right: nat): (e: nat)
    requires p <= right <= |src|
    ensures p <= e <= right
    decreases right - p
  {
    if p == right then p
    else if IsSpace(src[p]) then LeadEnd(src, spans, p + 1, right)
    else
      match SpanStartingAt(spans, p, right)
      case Some(c) => LeadEnd(src, spans, c.end, right)
      case None => p
  }

  /** Where the first comment of the leading run from `p` on starts. */
  function FirstLead(src: bytes, spans: seq<Range>, p: nat, right: nat): (r: Option<nat>)
    requires p <= right <= |src|
    ensures r.Some? ==> p <= r.value <= LeadEnd(src, spans, p, right)
    decreases right - p
  {
    if p == right then None
    else if IsSpace(src[p]) then FirstLead(src, spans, p + 1, right)
    else if SpanStartingAt(spans, p, right).Some? then Some(p) else None
  }

  /** Where the trailing run that has reached `q` begins. */
  function TrailStart(src: bytes, spans: seq<Range>, q: nat, lo: nat): (b: nat)
    requires lo <= q <= |src|
    ensures lo <= b <= q
    decreases q
  {
    if q == lo then q
    else if IsSpace(src[q - 1]) then TrailStart(src, spans, q - 1, lo)
    else
      match SpanEndingAt(spans, q, lo)
      case Some(c) => TrailStart(src, spans, c.start, lo)
      case None => q
  }

  /** Where the last comment of the trailing run down from `q` ends. */
  function LastTrail(src: bytes, spans: seq<Range>, q: nat, lo: nat): (r: Option<nat>)
    requires lo <= q <= |src|
    ensures r.Some? ==> TrailStart(src, spans, q, lo) <= r.value <= q
    decreases q
  {
    if q == lo then None
    else if IsSpace(src[q - 1]) then LastTrail(src, spans, q - 1, lo)
    else if SpanEndingAt(spans, q, lo).Some? then Some(q) else None
  }

  /** Length of the whitespace a string starts with. */
  function LeadSpace(s: bytes): (k: nat)
    ensures k <= |s| && AllSpace(s[..k]) && (k < |s| ==> !IsSpace(s[k]))
  {
    if s == [] || !IsSpace(s[0]) then 0
    else
      var k := LeadSpace(s[1..]);
      assert s[..k + 1] == [s[0]] + s[1..][..k];
      k + 1
  }

  /** Length of the whitespace a string ends with. */
  function TrailSpace(s: bytes): (k: nat)
    ensures k <= |s| && AllSpace(s[|s| - k..]) && (k < |s| ==> !IsSpace(s[|s| - k - 1]))
  {
    if s == [] || !IsSpace(s[|s| - 1]) then 0
    else
      var t := s[..|s| - 1];
      var k := TrailSpace(t);
      assert s[|s| - k - 1..] == t[|t| - k..] + [s[|s| - 1]];
      k + 1
  }

  /** Leading and trailing whitespace; an all-whitespace region reports the same run for both. */
  function EdgeSpace(s: bytes): (bytes, bytes) {
    if LeadSpace(s) == |s| then (s, s) else (s[..LeadSpace(s)], s[|s| - TrailSpace(s)..])
  }

  /** The edges of src[left..right). */
  function Recovered(src: bytes, left: nat, right: nat, spans: seq<Range>): Edges
    requires left <= right <= |src|
  {
    if !AnyCommentIn(spans, left, right) then
      var e := EdgeSpace(src[left..right]);
      Edges(e.0, [], [], e.1)
    else
      var p := LeadEnd(src, spans, left, right);
      var q := TrailStart(src, spans, right, p);
      var first := match FirstLead(src, spans, left, right) case Some(f) => f case None => p;
      var last := match LastTrail(src, spans, right, p) case Some(l) => l case None => q;
      Edges(src[left..first], src[first..p], src[q..last], src[last..right])
  }

  method RecoverEdgeComments(src: bytes, left: nat, right: nat, spans: seq<Range>) returns (e: Edges)
    requires left <= right <= |src|
    ensures e == Recovered(src, left, right, spans)
  {
    hide SpanStartingAt, SpanEndingAt, NonEmptyIn, LeadSpace, TrailSpace;
    if !AnyCommentIn(spans, left, right) {
      var ws := EdgeSpace(src[left..right]);
      return Edges(ws.0, [], [], ws.1);
    }
    var p := left;
    var firstLead: Option<nat> := None;
    while p < right
      invariant left <= p <= right
      invariant LeadEnd(src, spans, p, right) == LeadEnd(src, spans, left, right)
      invariant FirstLead(src, spans, left, right) == if firstLead.Some? then firstLead else FirstLead(src, spans, p, right)
      decreases right - p
    {
      if IsSpace(src[p]) {
        p := p + 1;
        continue;
      }
      var c := SpanStartingAt(spans, p, right);
      if c.None? {
        break;
      }
      StartingSpan(spans, p, right);
      if firstLead.None? {
        firstLead := Some(p);
      }
      p := c.value.end;
    }
    var leadEnd := p;
    var q := right;
    var lastTrail: Option<nat> := None;
    while q > leadEnd
      invariant leadEnd <= q <= right
      invariant TrailStart(src, spans, q, leadEnd) == TrailStart(src, spans, right, leadEnd)
      invariant LastTrail(src, spans, right, leadEnd) == if lastTrail.Some? then lastTrail else LastTrail(src, spans, q, leadEnd)
      decreases q
    {
      if IsSpace(src[q - 1]) {
        q := q - 1;
        continue;
      }
      var c := SpanEndingAt(spans, q, leadEnd);
      if c.None? {
        break;
      }
      EndingSpan(spans, q, leadEnd);
      if lastTrail.None? {
        lastTrail := Some(q);
      }
      q := c.value.start;
    }
    var first := if firstLead.Some? then firstLead.value else leadEnd;
    var last := if lastTrail.Some? then lastTrail.value else q;
    return Edges(src[left..first], src[first..leadEnd], src[q..last], src[last..right]);
  }

  lemma StartingSpan(spans: seq<Range>, at: nat, hi: nat)
    ensures var c := SpanStartingAt(spans, at, hi); c.Some? ==> at < c.value.end <= hi
  {
  }

  lemma EndingSpan(spans: seq<Range>, at: nat, lo: nat)
    ensures var c := SpanEndingAt(spans, at, lo); c.Some? ==> lo <= c.value.start < at
  {
  }

  // ----- the pieces -----

  lemma {:induction false} LeadIsSpace(src: bytes, spans: seq<Range>, p: nat, right: nat)
    requires p <= right <= |src|
    ensures var f := FirstLead(src, spans, p, right);
            var e := if f.Some? then f.value else LeadEnd(src, spans, p, right);
            AllSpace(src[p..e])
    decreases right - p
  {
    hide SpanStartingAt;
    if p < right && IsSpace(src[p]) {
      LeadIsSpace(src, spans, p + 1, right);
      var f := FirstLead(src, spans, p, right);
      var e := if f.Some? then f.value else LeadEnd(src, spans, p, right);
      assert src[p..e] == [src[p]] + src[p + 1..e];
    }
  }

  lemma {:induction false} TrailIsSpace(src: bytes, spans: seq<Range>, q: nat, lo: nat)
    requires lo <= q <= |src|
    ensures var l := LastTrail(src, spans, q, lo);
            var b := if l.Some? then l.value else TrailStart(src, spans, q, lo);
            AllSpace(src[b..q])
    decreases q
  {
    hide SpanEndingAt;
    if lo < q && IsSpace(src[q - 1]) {
      TrailIsSpace(src, spans, q - 1, lo);
      var l := LastTrail(src, spans, q, lo);
      var b := if l.Some? then l.value else TrailStart(src, spans, q, lo);
      assert src[b..q] == src[b..q - 1] + [src[q - 1]];
    }
  }

  /** With a comment in the region the pieces are a prefix and a suffix of it that do not overlap, and
      the whitespace pieces hold whitespace only. */
  lemma PiecesAreEdges(src: bytes, left: nat, right: nat, spans: seq<Range>)
    requires left <= right <= |src| && AnyCommentIn(spans, left, right)
    ensures var e := Recovered(src, left, right, spans);
            var p := LeadEnd(src, spans, left, right);
            var q := TrailStart(src, spans, right, p);
            && AllSpace(e.leadWS) && AllSpace(e.trailWS)
            && left <= p <= q <= right
            && e.leadWS + e.leadComments == src[left..p] && e.trailComments + e.trailWS == src[q..right]
  {
    hide LeadEnd, FirstLead, TrailStart, LastTrail, LeadSpace, TrailSpace, AnyCommentIn, AllSpace;
    LeadIsSpace(src, spans, left, right);
    var p := LeadEnd(src, spans, left, right);
    TrailIsSpace(src, spans, right, p);
    var q := TrailStart(src, spans, right, p);
    var first := match FirstLead(src, spans, left, right) case Some(f) => f case None => p;
    var last := match LastTrail(src, spans, right, p) case Some(l) => l case None => q;
    assert src[left..first] + src[first..p] == src[left..p];
    assert src[q..last] + src[last..right] == src[q..right];
  }

  /** Without a comment the edges are the region's whitespace runs, the same run twice when it is all
      whitespace. */
  lemma NoCommentEdges(src: bytes, left: nat, right: nat, spans: seq<Range>)
    requires left <= right <= |src| && !AnyCommentIn(spans, left, right)
    ensures var e := Recovered(src, left, right, spans);
            && e.leadComments == [] && e.trailComments == [] && AllSpace(e.leadWS) && AllSpace(e.trailWS)
            && (AllSpace(src[left..right]) ==> e.leadWS == e.trailWS == src[left..right])
            && e.leadWS <= src[left..right]
            && |e.trailWS| <= right - left && src[right - |e.trailWS|..right] == e.trailWS
  {
    hide LeadEnd, FirstLead, TrailStart, LastTrail, AnyCommentIn, EdgeSpace, AllSpace;
    var s := src[left..right];
    EdgeSpaceParts(s);
    var k := |EdgeSpace(s).1|;
    assert s[|s| - k..] == src[right - k..right];
  }

  lemma EdgeSpaceParts(s: bytes)
    ensures var e := EdgeSpace(s);
            && AllSpace(e.0) && AllSpace(e.1) && e.0 <= s && |e.1| <= |s| && s[|s| - |e.1|..] == e.1
            && (AllSpace(s) ==> e == (s, s))
  {
    hide LeadSpace, TrailSpace;
    if LeadSpace(s) == |s| {
      assert s[..|s|] == s;
    }
  }

  // ----- which comments survive -----

  /** Recorded comments are pairwise disjoint. */
  predicate Disjoint(spans: seq<Range>) {
    forall s, t | s in spans && t in spans && s != t :: s.end <= t.start || t.end <= s.start
  }

  /** Byte `k` belongs to a recorded comment lying wholly in [lo, hi). */
  predicate Covered(spans: seq<Range>, k: nat, lo: nat, hi: nat) {
    exists s | s in spans :: NonEmptyIn(s, lo, hi) && s.start <= k < s.end
  }

  /** Between the edge `lo` and `at` stand only whitespace and whole recorded comments of the region. */
  predicate OpenFrom(src: bytes, spans: seq<Range>, lo: nat, at: nat, hi: nat)
    requires hi <= |src|
  {
    forall k | lo <= k < at && k < hi :: IsSpace(src[k]) || Covered(spans, k, lo, hi)
  }

  /** Every comment of the region up to and including the one ending at `to` starts with a byte that is
      not whitespace. */
  predicate StartsSolid(src: bytes, spans: seq<Range>, lo: nat, to: nat, hi: nat)
    requires hi <= |src|
  {
    forall s | s in spans && NonEmptyIn(s, lo, hi) && s.end <= to :: !IsSpace(src[s.start])
  }

  /** Every comment of the region from the one starting at `from` on ends with a byte that is not
      whitespace. */
  predicate EndsSolid(src: bytes, spans: seq<Range>, lo: nat, from: nat, hi: nat)
    requires hi <= |src|
  {
    forall s | s in spans && NonEmptyIn(s, lo, hi) && s.start >= from :: !IsSpace(src[s.end - 1])
  }

  /** A position strictly inside no comment of the region. */
  predicate Between(spans: seq<Range>, p: nat, lo: nat, hi: nat) {
    forall s | s in spans && NonEmptyIn(s, lo, hi) :: p <= s.start || s.end <= p
  }

  /** A comment not blank all through. */
  predicate HasInk(src: bytes, s: Range)
    requires s.end <= |src|
  {
    exists k | s.start <= k < s.end :: !IsSpace(src[k])
  }

  /** Stepping over a whitespace byte does not step into a comment. */
  lemma SolidStart(src: bytes, spans: seq<Range>, left: nat, right: nat, p: nat, c: Range, s: Range)
    requires left <= p < right <= |src| && Disjoint(spans)
    requires c in spans && NonEmptyIn(c, left, right) && s in spans && NonEmptyIn(s, left, right)
    requires StartsSolid(src, spans, left, c.end, right) && p <= c.start && IsSpace(src[p])
    requires p <= s.start || s.end <= p
    ensures p + 1 <= s.start || s.end <= p + 1
    ensures p < c.start
  {
  }

  /** The ends of a recorded comment lie strictly inside no other. */
  lemma EndsBetween(spans: seq<Range>, s: Range, lo: nat, hi: nat)
    requires Disjoint(spans) && s in spans && NonEmptyIn(s, lo, hi)
    ensures Between(spans, s.start, lo, hi) && Between(spans, s.end, lo, hi)
  {
    forall t | t in spans && NonEmptyIn(t, lo, hi)
      ensures (s.end <= t.start || t.end <= s.end) && (s.start <= t.start || t.end <= s.start)
    {
      if t != s { assert s.end <= t.start || t.end <= s.start; }
    }
  }

  lemma SolidEnd(src: bytes, spans: seq<Range>, lo: nat, right: nat, q: nat, c: Range, s: Range)
    requires lo < q <= right <= |src| && Disjoint(spans)
    requires c in spans && NonEmptyIn(c, lo, right) && s in spans && NonEmptyIn(s, lo, right)
    requires EndsSolid(src, spans, lo, c.start, right) && c.end <= q && IsSpace(src[q - 1])
    requires q <= s.start || s.end <= q
    ensures q - 1 <= s.start || s.end <= q - 1
    ensures c.end < q
  {
  }

  lemma {:induction false} LeadReaches(src: bytes, spans: seq<Range>, left: nat, p: nat, right: nat, c: Range)
    requires left <= p <= right <= |src| && Disjoint(spans)
    requires c in spans && NonEmptyIn(c, left, right)
    requires OpenFrom(src, spans, left, c.start, right) && StartsSolid(src, spans, left, c.end, right)
    requires Between(spans, p, left, right) && p <= c.start
    ensures c.end <= LeadEnd(src, spans, p, right)
    ensures FirstLead(src, spans, p, right).Some? && FirstLead(src, spans, p, right).value <= c.start
    decreases right - p
  {
    hide OpenFrom, StartsSolid;
    if IsSpace(src[p]) {
      forall s | s in spans && NonEmptyIn(s, left, right) ensures p + 1 <= s.start || s.end <= p + 1 {
        SolidStart(src, spans, left, right, p, c, s);
      }
      SolidStart(src, spans, left, right, p, c, c);
      LeadReaches(src, spans, left, p + 1, right, c);
    } else {
      var d := CommentAt(src, spans, left, p, right, c);
      assert d in spans && d.start == p;
      var s := SpanStartingAt(spans, p, right).value;
      assert s == d;
      if d != c {
        EndsBetween(spans, d, left, right);
        LeadReaches(src, spans, left, d.end, right, c);
      }
    }
  }

  /** At a byte that is not whitespace the leading run stands at the start of a comment. */
  lemma CommentAt(src: bytes, spans: seq<Range>, left: nat, p: nat, right: nat, c: Range) returns (d: Range)
    requires left <= p < right <= |src| && Disjoint(spans)
    requires c in spans && NonEmptyIn(c, left, right)
    requires OpenFrom(src, spans, left, c.start, right)
    requires Between(spans, p, left, right) && p <= c.start && !IsSpace(src[p])
    ensures d in spans && d.start == p && NonEmptyIn(d, left, right)
    ensures d == c || d.end <= c.start
  {
    if p == c.start {
      d := c;
    } else {
      assert Covered(spans, p, left, right);
      d :| d in spans && NonEmptyIn(d, left, right) && d.start <= p < d.end;
      assert d.end <= c.start || c.end <= d.start;
    }
  }

  lemma InkAhead(src: bytes, s: Range)
    requires s.start < s.end <= |src| && HasInk(src, s) && IsSpace(src[s.start])
    ensures s.start + 1 < s.end && exists k | s.start + 1 <= k < s.end :: !IsSpace(src[k])
  {
    var k :| s.start <= k < s.end && !IsSpace(src[k]);
    assert k != s.start;
  }

  lemma InkBehind(src: bytes, s: Range)
    requires s.start < s.end <= |src| && HasInk(src, s) && IsSpace(src[s.end - 1])
    ensures s.start < s.end - 1 && exists k | s.start <= k < s.end - 1 :: !IsSpace(src[k])
  {
    var k :| s.start <= k < s.end && !IsSpace(src[k]);
    assert k != s.end - 1;
  }

  lemma Apart(spans: seq<Range>, s: Range, t: Range)
    requires Disjoint(spans) && s in spans && t in spans
    ensures s == t || s.end <= t.start || t.end <= s.start
  {
  }

  lemma BetweenNext(spans: seq<Range>, p: nat, lo: nat, hi: nat)
    requires Between(spans, p, lo, hi)
    requires forall s | s in spans && NonEmptyIn(s, lo, hi) :: s.start != p
    ensures Between(spans, p + 1, lo, hi)
  {
  }

  lemma BetweenPrevious(spans: seq<Range>, q: nat, lo: nat, hi: nat)
    requires 0 < q && Between(spans, q, lo, hi)
    requires forall s | s in spans && NonEmptyIn(s, lo, hi) :: s.end != q
    ensures Between(spans, q - 1, lo, hi)
  {
  }

  /** Strictly inside a comment, with ink still ahead, the leading run finds no way out. */
  lemma {:induction false} LeadStuck(src: bytes, spans: seq<Range>, p: nat, right: nat, s: Range)
    requires p <= right <= |src| && Disjoint(spans)
    requires s in spans && s.start < p < s.end <= right
    requires exists k | p <= k < s.end :: !IsSpace(src[k])
    ensures LeadEnd(src, spans, p, right) < s.end
    decreases right - p
  {
    if IsSpace(src[p]) {
      var k :| p <= k < s.end && !IsSpace(src[k]);
      LeadStuck(src, spans, p + 1, right, s);
    }
  }

  /** The leading run does not get past a comment that starts with whitespace. */
  lemma {:induction false} LeadStops(src: bytes, spans: seq<Range>, left: nat, p: nat, right: nat, bad: Range)
    requires left <= p <= right <= |src| && Disjoint(spans)
    requires forall s | s in spans && NonEmptyIn(s, left, right) :: HasInk(src, s)
    requires bad in spans && NonEmptyIn(bad, left, right) && IsSpace(src[bad.start])
    requires Between(spans, p, left, right) && p <= bad.start
    ensures LeadEnd(src, spans, p, right) < bad.end
    decreases right - p
  {
    hide Between, Disjoint, HasInk;
    if IsSpace(src[p]) {
      if s :| s in spans && NonEmptyIn(s, left, right) && s.start == p {
        InkAhead(src, s);
        LeadStuck(src, spans, p + 1, right, s);
        Apart(spans, s, bad);
      } else {
        BetweenNext(spans, p, left, right);
        LeadStops(src, spans, left, p + 1, right, bad);
      }
    } else if SpanStartingAt(spans, p, right).Some? {
      var s := SpanStartingAt(spans, p, right).value;
      Apart(spans, s, bad);
      EndsBetween(spans, s, left, right);
      LeadStops(src, spans, left, s.end, right, bad);
    }
  }

  /** A comment reachable from the left edge is recovered there exactly when it and the comments before
      it start with a byte that is not whitespace. */
  lemma LeadCommentRecoveredIff(src: bytes, left: nat, right: nat, spans: seq<Range>, c: Range)
    requires left <= right <= |src| && Disjoint(spans)
    requires forall s | s in spans && NonEmptyIn(s, left, right) :: HasInk(src, s)
    requires c in spans && NonEmptyIn(c, left, right) && OpenFrom(src, spans, left, c.start, right)
    ensures c.end <= LeadEnd(src, spans, left, right) <==> StartsSolid(src, spans, left, c.end, right)
    ensures StartsSolid(src, spans, left, c.end, right) ==>
            var first := FirstLead(src, spans, left, right);
            first.Some? && first.value <= c.start
  {
    hide LeadEnd, FirstLead, Disjoint, HasInk, OpenFrom;
    if StartsSolid(src, spans, left, c.end, right) {
      LeadReaches(src, spans, left, left, right, c);
    } else {
      var bad :| bad in spans && NonEmptyIn(bad, left, right) && bad.end <= c.end && IsSpace(src[bad.start]);
      LeadStops(src, spans, left, left, right, bad);
    }
  }

  // ----- the mirror, over what the leading run did not claim -----

  /** Between `at` and the right edge stand only whitespace and whole recorded comments of the region. */
  predicate OpenTo(src: bytes, spans: seq<Range>, lo: nat, at: nat, hi: nat)
    requires hi <= |src|
  {
    forall k | at <= k < hi :: IsSpace(src[k]) || Covered(spans, k, lo, hi)
  }

  lemma {:induction false} TrailReaches(src: bytes, spans: seq<Range>, lo: nat, q: nat, right: nat, c: Range)
    requires lo <= q <= right <= |src| && Disjoint(spans)
    requires c in spans && NonEmptyIn(c, lo, right)
    requires OpenTo(src, spans, lo, c.end, right) && EndsSolid(src, spans, lo, c.start, right)
    requires Between(spans, q, lo, right) && c.end <= q
    ensures TrailStart(src, spans, q, lo) <= c.start
    ensures LastTrail(src, spans, q, lo).Some? && c.end <= LastTrail(src, spans, q, lo).value
    decreases q
  {
    hide OpenTo, EndsSolid;
    if IsSpace(src[q - 1]) {
      forall s | s in spans && NonEmptyIn(s, lo, right) ensures q - 1 <= s.start || s.end <= q - 1 {
        SolidEnd(src, spans, lo, right, q, c, s);
      }
      SolidEnd(src, spans, lo, right, q, c, c);
      TrailReaches(src, spans, lo, q - 1, right, c);
    } else {
      var d := CommentBefore(src, spans, lo, q, right, c);
      var s := SpanEndingAt(spans, q, lo).value;
      assert s == d;
      if d != c {
        EndsBetween(spans, d, lo, right);
        TrailReaches(src, spans, lo, d.start, right, c);
      }
    }
  }

  /** At a byte that is not whitespace the trailing run stands at the end of a comment. */
  lemma CommentBefore(src: bytes, spans: seq<Range>, lo: nat, q: nat, right: nat, c: Range) returns (d: Range)
    requires lo < q <= right <= |src| && Disjoint(spans)
    requires c in spans && NonEmptyIn(c, lo, right)
    requires OpenTo(src, spans, lo, c.end, right)
    requires Between(spans, q, lo, right) && c.end <= q && !IsSpace(src[q - 1])
    ensures d in spans && d.end == q && NonEmptyIn(d, lo, right)
    ensures d == c || c.end <= d.start
  {
    if q == c.end {
      d := c;
    } else {
      assert Covered(spans, q - 1, lo, right);
      d :| d in spans && NonEmptyIn(d, lo, right) && d.start <= q - 1 < d.end;
      assert d.end <= c.start || c.end <= d.start;
    }
  }

  lemma {:induction false} TrailStuck(src: bytes, spans: seq<Range>, q: nat, lo: nat, s: Range)
    requires lo <= q <= |src| && Disjoint(spans)
    requires s in spans && lo <= s.start < q < s.end
    requires exists k | s.start <= k < q :: !IsSpace(src[k])
    ensures TrailStart(src, spans, q, lo) > s.start
    decreases q
  {
    if IsSpace(src[q - 1]) {
      var k :| s.start <= k < q && !IsSpace(src[k]);
      TrailStuck(src, spans, q - 1, lo, s);
    }
  }

  lemma {:induction false} TrailStops(src: bytes, spans: seq<Range>, lo: nat, q: nat, right: nat, bad: Range)
    requires lo <= q <= right <= |src| && Disjoint(spans)
    requires forall s | s in spans && NonEmptyIn(s, lo, right) :: HasInk(src, s)
    requires bad in spans && NonEmptyIn(bad, lo, right) && IsSpace(src[bad.end - 1])
    requires Between(spans, q, lo, right) && bad.end <= q
    ensures TrailStart(src, spans, q, lo) > bad.start
    decreases q
  {
    hide Between, Disjoint, HasInk;
    if IsSpace(src[q - 1]) {
      if s :| s in spans && NonEmptyIn(s, lo, right) && s.end == q {
        InkBehind(src, s);
        TrailStuck(src, spans, q - 1, lo, s);
        Apart(spans, s, bad);
      } else {
        BetweenPrevious(spans, q, lo, right);
        TrailStops(src, spans, lo, q - 1, right, bad);
      }
    } else if SpanEndingAt(spans, q, lo).Some? {
      var s := SpanEndingAt(spans, q, lo).value;
      Apart(spans, s, bad);
      EndsBetween(spans, s, lo, right);
      TrailStops(src, spans, lo, s.start, right, bad);
    }
  }

  /** A comment reachable from the right edge is recovered there exactly when it and the comments after
      it end with a byte that is not whitespace. */
  lemma TrailCommentRecoveredIff(src: bytes, left: nat, right: nat, spans: seq<Range>, c: Range)
    requires left <= right <= |src| && Disjoint(spans)
    requires forall s | s in spans && NonEmptyIn(s, left, right) :: HasInk(src, s)
    requires var lo := LeadEnd(src, spans, left, right);
             c in spans && NonEmptyIn(c, lo, right) && OpenTo(src, spans, lo, c.end, right)
    ensures var lo := LeadEnd(src, spans, left, right);
            && (TrailStart(src, spans, right, lo) <= c.start <==> EndsSolid(src, spans, lo, c.start, right))
            && (EndsSolid(src, spans, lo, c.start, right) ==>
                var last := LastTrail(src, spans, right, lo);
                last.Some? && c.end <= last.value)
  {
    hide LeadEnd, TrailStart, LastTrail, Disjoint, HasInk, OpenTo;
    var lo := LeadEnd(src, spans, left, right);
    if EndsSolid(src, spans, lo, c.start, right) {
      TrailReaches(src, spans, lo, right, right, c);
    } else {
      var bad :| bad in spans && NonEmptyIn(bad, lo, right) && bad.start >= c.start && IsSpace(src[bad.end - 1]);
      TrailStops(src, spans, lo, right, right, bad);
    }
  }

  /** The comment can be reached from an edge of the region over whitespace and whole comments, and the
      comments on the way, itself included, are solid on the side they are reached from. */
  predicate EdgeReachable(src: bytes, left: nat, right: nat, spans: seq<Range>, c: Range)
    requires left <= right <= |src|
  {
    var lo := LeadEnd(src, spans, left, right);
    || (OpenFrom(src, spans, left, c.start, right) && StartsSolid(src, spans, left, c.end, right))
    || (lo <= c.start && OpenTo(src, spans, lo, c.end, right) && EndsSolid(src, spans, lo, c.start, right))
  }

  predicate AllInked(src: bytes, left: nat, right: nat, spans: seq<Range>)
    requires left <= right <= |src|
  {
    forall s | s in spans && NonEmptyIn(s, left, right) :: HasInk(src, s)
  }

  /** `part` stands in `whole` as one piece. */
  ghost predicate Within(part: bytes, whole: bytes) {
    exists pre: bytes, post: bytes :: whole == pre + part + post
  }

  /** Every recorded comment reachable from an edge is in one of the comment pieces byte for byte. */
  lemma EdgeCommentsSurvive(src: bytes, left: nat, right: nat, spans: seq<Range>, c: Range)
    requires left <= right <= |src| && Disjoint(spans) && AllInked(src, left, right, spans)
    requires c in spans && NonEmptyIn(c, left, right) && EdgeReachable(src, left, right, spans, c)
    ensures || Within(src[c.start..c.end], Recovered(src, left, right, spans).leadComments)
            || Within(src[c.start..c.end], Recovered(src, left, right, spans).trailComments)
  {
    hide LeadEnd, FirstLead, TrailStart, LastTrail, Disjoint, HasInk, OpenFrom, OpenTo, StartsSolid, EndsSolid, Within;
    var i :| 0 <= i < |spans| && spans[i] == c;
    assert AnyCommentIn(spans, left, right);
    var p := LeadEnd(src, spans, left, right);
    if OpenFrom(src, spans, left, c.start, right) && StartsSolid(src, spans, left, c.end, right) {
      LeadCommentRecoveredIff(src, left, right, spans, c);
      PieceHolds(src, FirstLead(src, spans, left, right).value, p, c.start, c.end);
    } else {
      TrailCommentRecoveredIff(src, left, right, spans, c);
      PieceHolds(src, TrailStart(src, spans, right, p), LastTrail(src, spans, right, p).value, c.start, c.end);
    }
  }

  lemma PieceHolds(src: bytes, lo: nat, hi: nat, a: nat, b: nat)
    requires lo <= a <= b <= hi <= |src|
    ensures Within(src[a..b], src[lo..hi])
  {
    SliceOfSlice(src, lo, hi, a, b);
    var whole, part := src[lo..hi], src[a..b];
    assert whole == whole[..a - lo] + whole[a - lo..b - lo] + whole[b - lo..];
  }

  /** A comment that ends with its own newline, as Rust's documentation comments do, is lost at the
      right edge: `x//d<newline>` keeps only the newline. */
  lemma NewlineCommentLost()
    ensures Recovered([0x78, 0x2F, 0x2F, 0x64, 0x0A], 0, 5, [Range(1, 5)]) == Edges([], [], [], [0x0A])
  {
    var src: bytes := [0x78, 0x2F, 0x2F, 0x64, 0x0A];
    var spans := [Range(1, 5)];
    assert spans[1..] == [];
    assert NonEmptyIn(spans[0], 0, 5);
    assert SpanStartingAt(spans, 0, 5).None?;
    assert LeadEnd(src, spans, 0, 5) == 0 && FirstLead(src, spans, 0, 5).None?;
    assert SpanEndingAt(spans, 4, 0).None?;
    assert TrailStart(src, spans, 4, 0) == 4 && LastTrail(src, spans, 4, 0).None?;
  }
}
