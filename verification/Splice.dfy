/**
 The source-anchored replacement: what the template repeats of the pattern is taken from the source as
 two contiguous slices, and only the middle the caller rewrote is rendered.
 */
module Splice {
  import opened Bytes
  import opened Outcomes
  import opened SyntaxTree
  import opened MatchRecords
  import opened RawMatches
  import opened PlaceholderDsl
  import opened SpliceAnchors
  import opened SpliceScan
  import opened SpliceComments

  /** Leading whitespace, trimmed core, trailing whitespace; a blank region is all lead. */
  function SplitEdges(s: bytes): (bytes, bytes, bytes) {
    if LeadSpace(s) == |s| then (s, [], [])
    else
      EdgesApart(s);
      (s[..LeadSpace(s)], s[LeadSpace(s)..|s| - TrailSpace(s)], s[|s| - TrailSpace(s)..])
  }

  lemma EdgesApart(s: bytes)
    requires LeadSpace(s) < |s|
    ensures LeadSpace(s) < |s| - TrailSpace(s)
  {
    hide LeadSpace, TrailSpace;
    assert !IsSpace(s[LeadSpace(s)]);
  }

  method LeadRun(s: bytes) returns (start: nat)
    ensures start == LeadSpace(s)
  {
    hide AllSpace;
    start := 0;
    while start < |s| && IsSpace(s[start])
      invariant start <= |s| && start + LeadSpace(s[start..]) == LeadSpace(s)
    {
      assert s[start..][1..] == s[start + 1..];
      start := start + 1;
    }
  }

  lemma TrailStep(s: bytes, end: nat)
    requires 0 < end <= |s|
    ensures TrailSpace(s[..end]) == if IsSpace(s[end - 1]) then 1 + TrailSpace(s[..end - 1]) else 0
  {
    hide AllSpace, IsSpace;
    assert s[..end][..end - 1] == s[..end - 1];
  }

  method TrailRun(s: bytes, lo: nat) returns (end: nat)
    requires lo <= |s| - TrailSpace(s)
    ensures end == |s| - TrailSpace(s)
  {
    hide AllSpace, TrailSpace, IsSpace;
    end := |s|;
    assert s[..|s|] == s;
    while end > lo && IsSpace(s[end - 1])
      invariant lo <= end <= |s| && end - TrailSpace(s[..end]) == |s| - TrailSpace(s)
    {
      TrailStep(s, end);
      end := end - 1;
    }
    if end > lo {
      TrailStep(s, end);
    }
  }

  method SplitEdgeSpace(s: bytes) returns (lead: bytes, core: bytes, trail: bytes)
    ensures (lead, core, trail) == SplitEdges(s)
  {
    hide LeadSpace, TrailSpace, AllSpace;
    var start := LeadRun(s);
    if start == |s| {
      return s, [], [];
    }
    EdgesApart(s);
    var end := TrailRun(s, start);
    return s[..start], s[start..end], s[end..];
  }

  /** The template decides whether there is whitespace at an edge, the source decides what it is. */
  function PreferSourceSpace(templateSpace: bytes, sourceSpace: bytes): bytes {
    if templateSpace == [] then [] else if sourceSpace != [] then sourceSpace else templateSpace
  }

  /** The source range the template's middle stands in for: what lies between the anchors the two scans
      consumed, a zero-width seam when together they consumed them all. */
  function SpliceBounds(anchors: seq<Anchor>, outer: Capture, head: nat, tail: nat): (nat, nat)
    requires head + tail <= |anchors|
  {
    var left := if head > 0 then anchors[head - 1].srcEnd else outer.start;
    var right := if tail > 0 then anchors[|anchors| - tail].srcStart else outer.end;
    if head + tail != |anchors| then (left, right)
    else
      var right' := if tail == 0 then left else right;
      (if head == 0 then right' else left, right')
  }

  /** The bounds are a range of the outer span, and the anchors either scan consumed lie outside it. */
  lemma BoundsKeepConsumedAnchors(anchors: seq<Anchor>, outer: Capture, head: nat, tail: nat)
    requires head + tail <= |anchors| && |anchors| > 0 && Tiling(anchors, outer.start, outer.end)
    ensures var b := SpliceBounds(anchors, outer, head, tail);
            && outer.start <= b.0 <= b.1 <= outer.end
            && (forall i | 0 <= i < head :: anchors[i].srcEnd <= b.0)
            && (forall i | |anchors| - tail <= i < |anchors| :: b.1 <= anchors[i].srcStart)
            && (forall i | head <= i < |anchors| - tail :: b.0 <= anchors[i].srcStart && anchors[i].srcEnd <= b.1)
  {
  }

  /** The part of the source the result is built from, when the match can be anchored at all. */
  predicate Anchorable(m: RawMatch, src: bytes) {
    OUTER in m.captures && m.captures[OUTER].start < m.captures[OUTER].end <= |src|
  }

  function ContextOf(m: RawMatch, template: bytes, anchors: seq<Anchor>): Context {
    Context(template, anchors, m.captures, m.dropped)
  }

  function HeadScan(c: Context): Scan {
    HeadFrom(c, 0, 0, Widths(c.spans))
  }

  function TailScan(c: Context): Scan {
    TailFrom(c, HeadScan(c), |c.template|, 0, HeadScan(c).left)
  }

  /** Where the identity probe stops reading; it spends a copy of the budget. */
  function ProbeEnd(c: Context): (end: nat)
    ensures end <= |c.template|
  {
    var head := HeadScan(c);
    if c.spans == [] then head.offset else DroppedTail(c, head.anchors, head.offset, head.left)
  }

  /** The template repeated the pattern and said nothing more. */
  predicate SaysNothingNew(c: Context) {
    HeadScan(c).anchors == |c.anchors| && Trim(c.template[ProbeEnd(c)..]) == []
  }

  /** The rewritten region between the two source slices. */
  function Rewritten(c: Context, src: bytes, outer: Capture, comments: seq<Range>, left: nat, right: nat, region: bytes)
    : Result<bytes, TemplateError>
    requires outer.start <= left <= right <= outer.end <= |src|
  {
    var parts := SplitEdges(region);
    var body := Interpolated(parts.1, c.caps);
    if body.Err? then body
    else
      var e := Recovered(src, left, right, comments);
      Ok(src[outer.start..left]
         + (PreferSourceSpace(parts.0, e.leadWS) + e.leadComments + body.value
            + e.trailComments + PreferSourceSpace(parts.2, e.trailWS))
         + src[right..outer.end])
  }

  /** The replacement for one match, given its anchor list. */
  function Spliced(m: RawMatch, template: bytes, src: bytes, anchors: seq<Anchor>): Result<bytes, TemplateError>
    requires Anchorable(m, src) && anchors != []
    requires Tiling(anchors, m.captures[OUTER].start, m.captures[OUTER].end)
  {
    var outer, c := m.captures[OUTER], ContextOf(m, template, anchors);
    if SaysNothingNew(c) then Ok(src[outer.start..outer.end])
    else
      var head, tail := HeadScan(c), TailScan(c);
      var b := SpliceBounds(anchors, outer, head.anchors, tail.anchors);
      BoundsKeepConsumedAnchors(anchors, outer, head.anchors, tail.anchors);
      Rewritten(c, src, outer, m.comments, b.0, b.1, template[head.offset..tail.offset])
  }

  /** Builds the replacement. The source re-checks that the tail scan stopped at or after the head scan
      and that the bounds are a range of the outer span; both checks are proved never to fire. */
  method SpliceFromSource(m: RawMatch, template: bytes, src: bytes)
    returns (r: Result<bytes, TemplateError>, ghost anchors: seq<Anchor>)
    ensures !Anchorable(m, src) ==> r == Interpolated(template, m.captures)
    ensures Anchorable(m, src) ==>
      && AnchorList(m, src, m.captures[OUTER], anchors)
      && r == if anchors == [] then Interpolated(template, m.captures) else Spliced(m, template, src, anchors)
  {
    hide HeadFrom, TailFrom, DroppedTail, Trim, Interpolated, AnchorList, Recovered, SplitEdges, Widths;
    anchors := [];
    if OUTER !in m.captures || m.captures[OUTER].end <= m.captures[OUTER].start || m.captures[OUTER].end > |src| {
      r := InterpolateTemplate(template, m.captures);
      return;
    }
    var outer := m.captures[OUTER];
    var list := BuildAnchors(m, src, outer);
    anchors := list;
    if |list| == 0 {
      r := InterpolateTemplate(template, m.captures);
      return;
    }
    ListTiles(m, src, outer, list);
    var c := ContextOf(m, template, list);
    var drop := new DroppedBudget(m.dropped);
    var head := ScanTemplateHead(c, drop);
    if head.anchors == |list| {
      var probe := drop.Clone();
      var end := ConsumeDroppedTail(c, head, probe);
      if Trim(template[end..]) == [] {
        return Ok(src[outer.start..outer.end]), list;
      }
    }
    var tail := ScanTemplateTail(c, head, drop);
    assert tail.offset >= head.offset;
    var b := SpliceBounds(list, outer, head.anchors, tail.anchors);
    BoundsKeepConsumedAnchors(list, outer, head.anchors, tail.anchors);
    var left, right := b.0, b.1;
    assert left <= right && outer.start <= left && right <= outer.end;
    var lead, core, trail := SplitEdgeSpace(template[head.offset..tail.offset]);
    var body := InterpolateTemplate(core, m.captures);
    if body.Err? {
      return body, list;
    }
    var e := RecoverEdgeComments(src, left, right, m.comments);
    r := Ok(src[outer.start..left]
            + (PreferSourceSpace(lead, e.leadWS) + e.leadComments + body.value
               + e.trailComments + PreferSourceSpace(trail, e.trailWS))
            + src[right..outer.end]);
  }

  lemma ListTiles(m: RawMatch, src: bytes, outer: Capture, list: seq<Anchor>)
    requires AnchorList(m, src, outer, list)
    ensures Tiling(list, outer.start, outer.end)
  {
  }
}
