/**
 What the two scans consume, accounted for byte by byte, and what the rewrite leaves alone.
 */
module SpliceAccounting {
  import opened Bytes
  import opened Outcomes
  import opened SyntaxTree
  import opened MatchRecords
  import opened RawMatches
  import opened PlaceholderDsl
  import opened SpliceAnchors
  import opened SpliceScan
  import opened SpliceComments
  import opened Splice

  /** One thing a scan may consume. */
  datatype Piece =
    | Blank(text: bytes)
    | Spelled(anchor: nat, text: bytes)
    | EmptyRef(name: bytes, text: bytes)
    | Paid(b: byte)

  function PieceBytes(p: Piece): bytes {
    match p
    case Paid(b) => [b]
    case _ => p.text
  }

  function Flat(ps: seq<Piece>): bytes {
    if ps == [] then [] else PieceBytes(ps[0]) + Flat(ps[1..])
  }

  /** The anchors consumed, in order. */
  function AnchorsIn(ps: seq<Piece>): seq<nat> {
    if ps == [] then []
    else if ps[0].Spelled? then [ps[0].anchor] + AnchorsIn(ps[1..])
    else AnchorsIn(ps[1..])
  }

  function PaidIn(ps: seq<Piece>): nat {
    if ps == [] then 0 else (if ps[0].Paid? then 1 else 0) + PaidIn(ps[1..])
  }

  /** Whitespace is blank, an anchor is written as the pattern writes it, a reference to an empty
      sequence stands for nothing, and only bytes that belong to no identifier are paid for. */
  predicate Fits(c: Context, p: Piece) {
    match p
    case Blank(text) => AllSpace(text)
    case Spelled(i, text) =>
      i < |c.anchors| && if c.anchors[i].name == [] then text == c.anchors[i].text else IsReference(text, c.anchors[i].name)
    case EmptyRef(name, text) => IsEmptySeq(c.caps, name) && IsReference(text, name)
    case Paid(b) => !IsIdentCont(b)
  }

  predicate AllFit(c: Context, ps: seq<Piece>) {
    forall p | p in ps :: Fits(c, p)
  }

  function UpTo(lo: nat, hi: nat): seq<nat>
    decreases hi - lo
  {
    if lo >= hi then [] else [lo] + UpTo(lo + 1, hi)
  }

  lemma {:induction false} UpToExtend(lo: nat, hi: nat)
    requires lo <= hi
    ensures UpTo(lo, hi + 1) == UpTo(lo, hi) + [hi]
    decreases hi - lo
  {
    if lo < hi {
      UpToExtend(lo + 1, hi);
    }
  }

  /** `ps` is a lawful reading of the bytes `text`, consuming the anchors [from, to) and paying from
      `before` down to `after`. */
  predicate Reads(c: Context, ps: seq<Piece>, text: bytes, from: nat, to: nat, before: seq<nat>, after: seq<nat>) {
    && AllFit(c, ps) && Flat(ps) == text && AnchorsIn(ps) == UpTo(from, to)
    && PaidIn(ps) + Sum(after) == Sum(before)
  }

  lemma FlatStep(ps: seq<Piece>)
    requires ps != []
    ensures Flat(ps) == PieceBytes(ps[0]) + Flat(ps[1..])
    ensures AnchorsIn(ps) == (if ps[0].Spelled? then [ps[0].anchor] else []) + AnchorsIn(ps[1..])
    ensures PaidIn(ps) == (if ps[0].Paid? then 1 else 0) + PaidIn(ps[1..])
  {
    hide PieceBytes;
  }

  lemma {:induction false} FlatAppend(a: seq<Piece>, b: seq<Piece>)
    ensures Flat(a + b) == Flat(a) + Flat(b)
    ensures AnchorsIn(a + b) == AnchorsIn(a) + AnchorsIn(b)
    ensures PaidIn(a + b) == PaidIn(a) + PaidIn(b)
  {
    if a == [] {
      assert a + b == b;
    } else {
      hide *;
      assert (a + b)[0] == a[0] && (a + b)[1..] == a[1..] + b;
      FlatAppend(a[1..], b);
      FlatStep(a);
      FlatStep(a + b);
      Regroup(PieceBytes(a[0]), Flat(a[1..]), Flat(b));
      Regroup(if a[0].Spelled? then [a[0].anchor] else [], AnchorsIn(a[1..]), AnchorsIn(b));
    }
  }

  lemma Two(p: Piece, q: Piece)
    ensures Flat([p, q]) == PieceBytes(p) + PieceBytes(q)
    ensures AnchorsIn([p, q]) == (if p.Spelled? then [p.anchor] else []) + (if q.Spelled? then [q.anchor] else [])
    ensures PaidIn([p, q]) == (if p.Paid? then 1 else 0) + (if q.Paid? then 1 else 0)
  {
    hide PieceBytes;
    assert [p, q][1..] == [q] && [q][1..] == [];
    assert Flat([q]) == PieceBytes(q) + Flat([]) && Flat([p, q]) == PieceBytes(p) + Flat([q]);
    assert AnchorsIn([q]) == if q.Spelled? then [q.anchor] else [];
    assert PaidIn([q]) == if q.Paid? then 1 else 0;
  }

  /** One piece behind its whitespace, then the rest of the head's reading. */
  lemma HeadCons(c: Context, ti: nat, j: nat, next: nat, off: nat, p: Piece, rest: seq<Piece>,
          from: nat, mid: nat, to: nat, before: seq<nat>, paid: seq<nat>, after: seq<nat>)
    requires ti <= j <= next <= off <= |c.template| && AllSpace(c.template[ti..j]) && Fits(c, p)
    requires PieceBytes(p) == c.template[j..next]
    requires Reads(c, rest, c.template[next..off], mid, to, paid, after)
    requires if p.Spelled? then p.anchor == from && mid == from + 1 && from < to else mid == from
    requires Sum(paid) + (if p.Paid? then 1 else 0) == Sum(before)
    ensures Reads(c, [Blank(c.template[ti..j]), p] + rest, c.template[ti..off], from, to, before, after)
  {
    hide AllSpace, Sum, Flat, AnchorsIn, PaidIn, UpTo, Fits, AllFit, PieceBytes;
    var space := Blank(c.template[ti..j]);
    Two(space, p);
    BlankFits(c, c.template[ti..j]);
    FlatAppend([space, p], rest);
    UpToStarts(from, to);
    ThreeParts(c.template, ti, j, next, off);
    PairFits(c, space, p, rest);
  }

  lemma BlankFits(c: Context, text: bytes)
    requires AllSpace(text)
    ensures Fits(c, Blank(text)) && PieceBytes(Blank(text)) == text
  {
  }

  lemma ThreeParts(s: bytes, a: nat, b: nat, c: nat, d: nat)
    requires a <= b <= c <= d <= |s|
    ensures s[a..d] == s[a..b] + s[b..c] + s[c..d] == s[a..b] + (s[b..c] + s[c..d])
  {
  }

  lemma PairFits(c: Context, p: Piece, q: Piece, rest: seq<Piece>)
    requires Fits(c, p) && Fits(c, q) && AllFit(c, rest)
    ensures AllFit(c, [p, q] + rest) && AllFit(c, rest + [p, q])
  {
    hide Fits;
    forall x | x in [p, q] ensures Fits(c, x) {}
  }

  lemma UpToStarts(lo: nat, hi: nat)
    ensures lo < hi ==> UpTo(lo, hi) == [lo] + UpTo(lo + 1, hi)
  {
  }

  lemma NothingRead(c: Context, ti: nat, ai: nat, left: seq<nat>)
    requires ti <= |c.template|
    ensures Reads(c, [], c.template[ti..ti], ai, ai, left, left)
  {
  }

  /** Everything the head scan passes over is lawful, and it consumes the anchors in order. */
  lemma {:induction false} HeadAccount(c: Context, ti: nat, ai: nat, left: seq<nat>) returns (ps: seq<Piece>)
    requires ti <= |c.template| && ai <= |c.anchors| && |left| == |c.spans|
    ensures var r := HeadFrom(c, ti, ai, left);
            Reads(c, ps, c.template[ti..r.offset], ai, r.anchors, left, r.left)
    decreases |c.template| - ti
  {
    hide HeadFrom, Reads, RefHead, Pay, WindowLow, WindowHigh, IsEmptySeq, SkipSpace, LiteralAt;
    HeadStep(c, ti, ai, left);
    var r := HeadFrom(c, ti, ai, left);
    var j := SkipSpace(c.template, ti);
    NothingRead(c, ti, ai, left);
    ps := [];
    if ai < |c.anchors| && j < |c.template| {
      var ref := RefHead(c.template, j);
      if ref.Some? {
        var name, at := ref.value.name, ref.value.at;
        if IsEmptySeq(c.caps, name) {
          var rest := HeadAccount(c, at, ai, left);
          var p := EmptyRef(name, c.template[j..at]);
          HeadCons(c, ti, j, at, r.offset, p, rest, ai, ai, r.anchors, left, left, r.left);
          ps := [Blank(c.template[ti..j]), p] + rest;
        } else if c.anchors[ai].name == name {
          var rest := HeadAccount(c, at, ai + 1, left);
          var p := Spelled(ai, c.template[j..at]);
          HeadCons(c, ti, j, at, r.offset, p, rest, ai, ai + 1, r.anchors, left, left, r.left);
          ps := [Blank(c.template[ti..j]), p] + rest;
        }
      } else {
        var a := c.anchors[ai];
        var paid := Pay(c.spans, left, c.template[j], WindowLow(c.anchors, ai - 1), WindowHigh(c.anchors, ai));
        if LiteralAt(a, c.template, j) {
          LiteralFits(a, c.template, j);
          LiteralIsLiteral(a, c.template, j);
          var rest := HeadAccount(c, j + |a.text|, ai + 1, left);
          var p := Spelled(ai, a.text);
          HeadCons(c, ti, j, j + |a.text|, r.offset, p, rest, ai, ai + 1, r.anchors, left, left, r.left);
          ps := [Blank(c.template[ti..j]), p] + rest;
        } else if paid.Some? {
          PayingCostsOne(c.spans, left, c.template[j], WindowLow(c.anchors, ai - 1), WindowHigh(c.anchors, ai));
          var rest := HeadAccount(c, j + 1, ai, paid.value);
          var p := Paid(c.template[j]);
          PaidByte(c.template, j);
          HeadCons(c, ti, j, j + 1, r.offset, p, rest, ai, ai, r.anchors, left, paid.value, r.left);
          ps := [Blank(c.template[ti..j]), p] + rest;
        }
      }
    }
  }

  lemma PaidByte(s: bytes, j: nat)
    requires j < |s|
    ensures PieceBytes(Paid(s[j])) == s[j..j + 1]
  {
  }

  lemma LiteralIsLiteral(a: Anchor, s: bytes, j: nat)
    requires j <= |s| && LiteralAt(a, s, j)
    ensures a.name == []
  {
  }

  /** The tail's reading up to one piece and the whitespace behind it. */
  lemma TailSnoc(c: Context, off: nat, at: nat, j: nat, tj: nat, rest: seq<Piece>, p: Piece,
          from: nat, mid: nat, to: nat, before: seq<nat>, paid: seq<nat>, after: seq<nat>)
    requires off <= at <= j <= tj <= |c.template| && AllSpace(c.template[j..tj]) && Fits(c, p)
    requires PieceBytes(p) == c.template[at..j]
    requires Reads(c, rest, c.template[off..at], from, mid, paid, after)
    requires if p.Spelled? then p.anchor == mid && to == mid + 1 && from <= mid else mid == to
    requires Sum(paid) + (if p.Paid? then 1 else 0) == Sum(before)
    ensures Reads(c, rest + [p, Blank(c.template[j..tj])], c.template[off..tj], from, to, before, after)
  {
    hide AllSpace, Sum, Flat, AnchorsIn, PaidIn, UpTo, Fits, AllFit, PieceBytes;
    var space := Blank(c.template[j..tj]);
    Two(p, space);
    BlankFits(c, c.template[j..tj]);
    FlatAppend(rest, [p, space]);
    ThreeParts(c.template, off, at, j, tj);
    if from <= mid { UpToExtend(from, mid); }
    PairFits(c, p, space, rest);
  }

  /** `ps` reads what the tail scan consumes from `tj` down. */
  ghost predicate TailReads(c: Context, head: Scan, tj: nat, aj: nat, left: seq<nat>, ps: seq<Piece>)
    requires head.offset <= tj <= |c.template| && head.anchors + aj <= |c.anchors| && |left| == |c.spans|
  {
    var r := TailFrom(c, head, tj, aj, left);
    Reads(c, ps, c.template[r.offset..tj], |c.anchors| - r.anchors, |c.anchors| - aj, left, r.left)
  }

  /** One piece in front of the whitespace the scan skips, and before it the rest of the reading. */
  lemma TailGrows(c: Context, head: Scan, tj: nat, aj: nat, left: seq<nat>, at: nat, p: Piece,
          aj': nat, left': seq<nat>, rest: seq<Piece>)
    requires head.offset <= tj <= |c.template| && head.offset <= at <= SkipSpaceBack(c.template, tj, head.offset)
    requires head.anchors + aj <= head.anchors + aj' <= |c.anchors| && |left| == |left'| == |c.spans|
    requires TailFrom(c, head, tj, aj, left) == TailFrom(c, head, at, aj', left')
    requires Fits(c, p) && PieceBytes(p) == c.template[at..SkipSpaceBack(c.template, tj, head.offset)]
    requires if p.Spelled? then p.anchor == |c.anchors| - 1 - aj && aj' == aj + 1 else aj' == aj
    requires Sum(left') + (if p.Paid? then 1 else 0) == Sum(left)
    requires TailReads(c, head, at, aj', left', rest)
    ensures TailReads(c, head, tj, aj, left, rest + [p, Blank(c.template[SkipSpaceBack(c.template, tj, head.offset)..tj])])
  {
    hide TailFrom, Reads, SkipSpaceBack, Sum, Fits, PieceBytes;
    var r, n := TailFrom(c, head, tj, aj, left), |c.anchors|;
    TailSnoc(c, r.offset, at, SkipSpaceBack(c.template, tj, head.offset), tj, rest, p, n - r.anchors, n - aj', n - aj, left, left', r.left);
  }

  lemma {:induction false} TailStops(c: Context, head: Scan, tj: nat, aj: nat, left: seq<nat>)
    requires head.offset <= tj <= |c.template| && head.anchors + aj <= |c.anchors| && |left| == |c.spans|
    requires TailFrom(c, head, tj, aj, left) == Scan(aj, tj, left)
    ensures TailReads(c, head, tj, aj, left, [])
  {
    hide TailFrom, Reads;
    NothingRead(c, tj, |c.anchors| - aj, left);
  }

  /** Everything the tail scan passes over is lawful, and it consumes the last anchors in order. */
  lemma {:induction false} TailAccount(c: Context, head: Scan, tj: nat, aj: nat, left: seq<nat>)
    returns (ps: seq<Piece>)
    requires head.offset <= tj <= |c.template| && head.anchors + aj <= |c.anchors| && |left| == |c.spans|
    ensures TailReads(c, head, tj, aj, left, ps)
    decreases tj
  {
    hide TailReads, TailFrom, RefTail, Pay, WindowLow, WindowHigh, IsEmptySeq, SkipSpaceBack, LiteralUpTo, Sum;
    TailStep(c, head, tj, aj, left);
    var j := SkipSpaceBack(c.template, tj, head.offset);
    ps := [];
    if head.anchors + aj == |c.anchors| || j == head.offset {
      TailStops(c, head, tj, aj, left);
    } else {
      var ai := |c.anchors| - 1 - aj;
      var a := c.anchors[ai];
      var space, ref := Blank(c.template[j..tj]), RefTail(c.template, j);
      if ref.Some? {
        ps := TailAccountRef(c, head, tj, aj, left, ref.value);
      } else {
        var paid := Pay(c.spans, left, c.template[j - 1], WindowLow(c.anchors, ai), WindowHigh(c.anchors, ai + 1));
        if LiteralUpTo(a, c.template, j, head.offset) {
          LiteralFitsBefore(a, c.template, j, head.offset);
          LiteralIsLiteralToo(a, c.template, j, head.offset);
          var rest := TailAccount(c, head, j - |a.text|, aj + 1, left);
          TailGrows(c, head, tj, aj, left, j - |a.text|, Spelled(ai, a.text), aj + 1, left, rest);
          ps := rest + [Spelled(ai, a.text), space];
        } else if paid.Some? {
          PayingCostsOne(c.spans, left, c.template[j - 1], WindowLow(c.anchors, ai), WindowHigh(c.anchors, ai + 1));
          PaidByte(c.template, j - 1);
          var rest := TailAccount(c, head, j - 1, aj, paid.value);
          TailGrows(c, head, tj, aj, left, j - 1, Paid(c.template[j - 1]), aj, paid.value, rest);
          ps := rest + [Paid(c.template[j - 1]), space];
        } else {
          TailStops(c, head, tj, aj, left);
        }
      }
    }
  }

  lemma {:induction false} TailAccountRef(c: Context, head: Scan, tj: nat, aj: nat, left: seq<nat>, ref: Reference)
    returns (ps: seq<Piece>)
    requires head.offset <= tj <= |c.template| && head.anchors + aj < |c.anchors| && |left| == |c.spans|
    requires var j := SkipSpaceBack(c.template, tj, head.offset); j != head.offset && RefTail(c.template, j) == Some(ref)
    ensures TailReads(c, head, tj, aj, left, ps)
    decreases tj, 0
  {
    hide TailReads, TailFrom, RefTail, Pay, WindowLow, WindowHigh, IsEmptySeq, SkipSpaceBack, LiteralUpTo, Sum;
    TailStep(c, head, tj, aj, left);
    var j, ai := SkipSpaceBack(c.template, tj, head.offset), |c.anchors| - 1 - aj;
    var space, spelled := Blank(c.template[j..tj]), c.template[ref.at..j];
    ps := [];
    if ref.at >= head.offset && IsEmptySeq(c.caps, ref.name) {
      var rest := TailAccount(c, head, ref.at, aj, left);
      TailGrows(c, head, tj, aj, left, ref.at, EmptyRef(ref.name, spelled), aj, left, rest);
      ps := rest + [EmptyRef(ref.name, spelled), space];
    } else if ref.at >= head.offset && c.anchors[ai].name == ref.name {
      var rest := TailAccount(c, head, ref.at, aj + 1, left);
      TailGrows(c, head, tj, aj, left, ref.at, Spelled(ai, spelled), aj + 1, left, rest);
      ps := rest + [Spelled(ai, spelled), space];
    } else {
      TailStops(c, head, tj, aj, left);
    }
  }

  lemma LiteralIsLiteralToo(a: Anchor, s: bytes, j: nat, lo: nat)
    requires j <= |s| && LiteralUpTo(a, s, j, lo)
    ensures a.name == []
  {
  }

  /** The template is what the head consumed, the middle, and what the tail consumed. The two scans
      consume the first and the last anchors, and what they pay for dropped tokens is covered once by
      the widths of the dropped spans. */
  lemma TemplateAccounted(c: Context) returns (front: seq<Piece>, back: seq<Piece>)
    ensures var h, t, n := HeadScan(c), TailScan(c), |c.anchors|;
            && c.template == Flat(front) + c.template[h.offset..t.offset] + Flat(back)
            && AllFit(c, front) && AllFit(c, back)
            && AnchorsIn(front) == UpTo(0, h.anchors) && AnchorsIn(back) == UpTo(n - t.anchors, n)
            && h.anchors + t.anchors <= n
            && PaidIn(front) + PaidIn(back) <= Sum(Widths(c.spans))
  {
    hide HeadFrom, TailFrom, AllFit, Flat, AnchorsIn, PaidIn, UpTo, Sum;
    front := HeadAccount(c, 0, 0, Widths(c.spans));
    back := TailAccount(c, HeadScan(c), |c.template|, 0, HeadScan(c).left);
    var h, t := HeadScan(c).offset, TailScan(c).offset;
    assert c.template == c.template[0..h] + c.template[h..t] + c.template[t..|c.template|];
  }

  /** A replacement that is not the identity keeps the source before and after its bounds untouched,
      and every anchor either scan consumed lies in what is kept. */
  lemma ConsumedAnchorsSurvive(m: RawMatch, template: bytes, src: bytes, anchors: seq<Anchor>)
    returns (middle: bytes)
    requires Anchorable(m, src) && anchors != []
    requires Tiling(anchors, m.captures[OUTER].start, m.captures[OUTER].end)
    requires Spliced(m, template, src, anchors).Ok? && !SaysNothingNew(ContextOf(m, template, anchors))
    ensures var outer, c := m.captures[OUTER], ContextOf(m, template, anchors);
            var b := SpliceBounds(anchors, outer, HeadScan(c).anchors, TailScan(c).anchors);
            && Spliced(m, template, src, anchors).value == src[outer.start..b.0] + middle + src[b.1..outer.end]
            && outer.start <= b.0 <= b.1 <= outer.end
            && (forall i | 0 <= i < HeadScan(c).anchors :: anchors[i].srcEnd <= b.0)
            && (forall i | |anchors| - TailScan(c).anchors <= i < |anchors| :: b.1 <= anchors[i].srcStart)
  {
    hide HeadScan, TailScan, ProbeEnd, Interpolated, Recovered, SplitEdges, Trim;
    var outer, c := m.captures[OUTER], ContextOf(m, template, anchors);
    ScansFit(c);
    var h, t := HeadScan(c), TailScan(c);
    var b := SpliceBounds(anchors, outer, h.anchors, t.anchors);
    BoundsKeepConsumedAnchors(anchors, outer, h.anchors, t.anchors);
    var parts := SplitEdges(template[h.offset..t.offset]);
    var e := Recovered(src, b.0, b.1, m.comments);
    middle := PreferSourceSpace(parts.0, e.leadWS) + e.leadComments + Interpolated(parts.1, c.caps).value
              + e.trailComments + PreferSourceSpace(parts.2, e.trailWS);
  }

  lemma ScansFit(c: Context)
    ensures HeadScan(c).offset <= TailScan(c).offset <= |c.template|
    ensures HeadScan(c).anchors + TailScan(c).anchors <= |c.anchors|
  {
    hide HeadFrom, TailFrom;
  }

  function BoundsOf(m: RawMatch, template: bytes, anchors: seq<Anchor>): (nat, nat)
    requires OUTER in m.captures
  {
    var c := ContextOf(m, template, anchors);
    SpliceBounds(anchors, m.captures[OUTER], HeadScan(c).anchors, TailScan(c).anchors)
  }

  /** A skipped comment at an edge of the rewritten region is in the replacement, byte for byte. */
  lemma EdgeCommentsAreReEmitted(m: RawMatch, template: bytes, src: bytes, anchors: seq<Anchor>,
          c: Range)
    requires Anchorable(m, src) && anchors != []
    requires Tiling(anchors, m.captures[OUTER].start, m.captures[OUTER].end)
    requires Spliced(m, template, src, anchors).Ok? && !SaysNothingNew(ContextOf(m, template, anchors))
    requires var b := BoundsOf(m, template, anchors);
             && b.0 <= b.1 <= |src| && Disjoint(m.comments) && AllInked(src, b.0, b.1, m.comments)
             && c in m.comments && NonEmptyIn(c, b.0, b.1) && EdgeReachable(src, b.0, b.1, m.comments, c)
    ensures Within(src[c.start..c.end], Spliced(m, template, src, anchors).value)
  {
    hide HeadScan, TailScan, ProbeEnd, Interpolated, Recovered, SplitEdges, Trim, Disjoint, AllInked, EdgeReachable,
         Within, PreferSourceSpace;
    var outer, x := m.captures[OUTER], ContextOf(m, template, anchors);
    ScansFit(x);
    var h, t := HeadScan(x), TailScan(x);
    var b := BoundsOf(m, template, anchors);
    BoundsKeepConsumedAnchors(anchors, outer, h.anchors, t.anchors);
    EdgeCommentsSurvive(src, b.0, b.1, m.comments, c);
    var parts := SplitEdges(template[h.offset..t.offset]);
    var e := Recovered(src, b.0, b.1, m.comments);
    EitherPieceHolds(src[c.start..c.end], src[outer.start..b.0], PreferSourceSpace(parts.0, e.leadWS), e.leadComments,
                     Interpolated(parts.1, x.caps).value, e.trailComments, PreferSourceSpace(parts.2, e.trailWS),
                     src[b.1..outer.end]);
  }

  lemma EitherPieceHolds(part: bytes, pre: bytes, lead: bytes, lc: bytes, body: bytes, tc: bytes,
          trail: bytes, post: bytes)
    requires Within(part, lc) || Within(part, tc)
    ensures Within(part, pre + (lead + lc + body + tc + trail) + post)
  {
    hide Within;
    var out := pre + (lead + lc + body + tc + trail) + post;
    if Within(part, lc) {
      assert out == (pre + lead) + lc + (body + tc + trail + post);
      WithinLarger(part, lc, pre + lead, body + tc + trail + post);
    } else {
      assert out == (pre + lead + lc + body) + tc + (trail + post);
      WithinLarger(part, tc, pre + lead + lc + body, trail + post);
    }
  }

  lemma WithinLarger(part: bytes, piece: bytes, pre: bytes, post: bytes)
    requires Within(part, piece)
    ensures Within(part, pre + piece + post)
  {
    var a: bytes, b: bytes :| piece == a + part + b;
    assert pre + piece + post == (pre + a) + part + (b + post);
  }
}
