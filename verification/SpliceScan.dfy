/**
 Reading a template from both ends against the anchor list. Each end consumes the part of the template
 that repeats the pattern: whitespace, anchors, references to empty sequences, and single bytes of
 tokens the match dropped, paid from a budget both ends share.
 */
module SpliceScan {
  import opened Bytes
  import opened Outcomes
  import opened SyntaxTree
  import opened MatchRecords
  import opened SpliceAnchors

  const NO_LIMIT: nat := 0xFFFF_FFFF

  // ----- reading a reference at either end -----

  /** How many dollars stand from `i` on. */
  function DollarsFrom(s: bytes, i: nat): (d: nat)
    requires i <= |s|
    ensures i + d <= |s| && (i + d < |s| ==> s[i + d] != DOLLAR)
    ensures forall k | i <= k < i + d :: s[k] == DOLLAR
    decreases |s| - i
  {
    if i < |s| && s[i] == DOLLAR then 1 + DollarsFrom(s, i + 1) else 0
  }

  function DollarsBefore(s: bytes, i: nat): (d: nat)
    requires i <= |s|
    ensures d <= i && (d < i ==> s[i - d - 1] != DOLLAR)
    ensures forall k | i - d <= k < i :: s[k] == DOLLAR
  {
    if i > 0 && s[i - 1] == DOLLAR then 1 + DollarsBefore(s, i - 1) else 0
  }

  function WordStart(s: bytes, j: nat): (k: nat)
    requires j <= |s|
    ensures k <= j && (k > 0 ==> !IsIdentCont(s[k - 1]))
    ensures forall x | k <= x < j :: IsIdentCont(s[x])
  {
    if j > 0 && IsIdentCont(s[j - 1]) then WordStart(s, j - 1) else j
  }

  /** A capture name and the offset of its reference's far end. */
  datatype Reference = Reference(name: bytes, at: nat)

  /** `$NAME` or `$$$NAME` starting at `i`. */
  function RefHead(s: bytes, i: nat): (r: Option<Reference>)
    requires i < |s|
    ensures r.Some? ==> i < r.value.at <= |s| && r.value.name != []
    ensures r.Some? ==> IsReference(s[i..r.value.at], r.value.name)
  {
    var d := DollarsFrom(s, i);
    if d != 1 && d != 3 then None
    else if i + d >= |s| || !IsIdentStart(s[i + d]) then None
    else
      var e := IdentEnd(s, i + d);
      assert s[i..e] == s[i..i + d] + s[i + d..e];
      assert s[i..i + d] == Dollars(d);
      Some(Reference(s[i + d..e], e))
  }

  /** `$NAME` or `$$$NAME` ending at `j`. */
  function RefTail(s: bytes, j: nat): (r: Option<Reference>)
    requires 0 < j <= |s|
    ensures r.Some? ==> r.value.at < j && r.value.name != []
    ensures r.Some? ==> IsReference(s[r.value.at..j], r.value.name)
  {
    var k := WordStart(s, j);
    if k == j || !IsIdentStart(s[k]) then None
    else
      var d := DollarsBefore(s, k);
      if d != 1 && d != 3 then None
      else
        assert s[k - d..j] == s[k - d..k] + s[k..j];
        assert s[k - d..k] == Dollars(d);
        Some(Reference(s[k..j], k - d))
  }

  function Dollars(d: nat): bytes {
    seq(d, _ => DOLLAR)
  }

  predicate IsReference(text: bytes, name: bytes) {
    text == Dollars(1) + name || text == Dollars(3) + name
  }

  method PlaceholderHead(s: bytes, i: nat) returns (r: Option<Reference>)
    requires i < |s|
    ensures r == RefHead(s, i)
  {
    hide IsReference;
    if s[i] != DOLLAR {
      return None;
    }
    var d := 0;
    while i + d < |s| && s[i + d] == DOLLAR
      invariant i + d <= |s| && d + DollarsFrom(s, i + d) == DollarsFrom(s, i)
    {
      d := d + 1;
    }
    if d != 1 && d != 3 {
      return None;
    }
    var k := i + d;
    if k >= |s| || !IsIdentStart(s[k]) {
      return None;
    }
    var e := k;
    while e < |s| && IsIdentCont(s[e])
      invariant k <= e <= |s| && IdentEnd(s, e) == IdentEnd(s, k)
    {
      e := e + 1;
    }
    return Some(Reference(s[k..e], e));
  }

  method PlaceholderTail(s: bytes, j: nat) returns (r: Option<Reference>)
    requires 0 < j <= |s|
    ensures r == RefTail(s, j)
  {
    hide IsReference;
    var k := j;
    while k > 0 && IsIdentCont(s[k - 1])
      invariant k <= j && WordStart(s, k) == WordStart(s, j)
    {
      k := k - 1;
    }
    if k == j || !IsIdentStart(s[k]) {
      return None;
    }
    var d := 0;
    while k - d > 0 && s[k - d - 1] == DOLLAR
      invariant d <= k && d + DollarsBefore(s, k - d) == DollarsBefore(s, k)
    {
      d := d + 1;
    }
    if d != 1 && d != 3 {
      return None;
    }
    return Some(Reference(s[k..j], k - d));
  }

  /** A literal matched at the head would continue into a longer identifier. */
  predicate BreaksRight(token: bytes, s: bytes, end: nat)
    requires token != []
  {
    IsIdentCont(token[|token| - 1]) && end < |s| && IsIdentCont(s[end])
  }

  /** A literal matched at the tail would continue a longer identifier to its left. */
  predicate BreaksLeft(token: bytes, s: bytes, start: nat)
    requires token != []
  {
    IsIdentCont(token[0]) && 0 < start <= |s| && IsIdentCont(s[start - 1])
  }

  predicate IsEmptySeq(caps: map<bytes, Capture>, name: bytes) {
    name in caps && caps[name].text == [] && caps[name].end <= caps[name].start
  }

  function SkipSpace(s: bytes, i: nat): (j: nat)
    requires i <= |s|
    ensures i <= j <= |s| && (j < |s| ==> !IsSpace(s[j])) && AllSpace(s[i..j])
    decreases |s| - i
  {
    if i < |s| && IsSpace(s[i]) then
      var j := SkipSpace(s, i + 1);
      assert s[i..j] == [s[i]] + s[i + 1..j];
      j
    else i
  }

  function SkipSpaceBack(s: bytes, j: nat, lo: nat): (i: nat)
    requires lo <= j <= |s|
    ensures lo <= i <= j && (i > lo ==> !IsSpace(s[i - 1])) && AllSpace(s[i..j])
    decreases j
  {
    if j > lo && IsSpace(s[j - 1]) then
      var i := SkipSpaceBack(s, j - 1, lo);
      assert s[i..j] == s[i..j - 1] + [s[j - 1]];
      i
    else j
  }

  method PastSpace(s: bytes, i: nat) returns (j: nat)
    requires i <= |s|
    ensures j == SkipSpace(s, i)
  {
    hide AllSpace;
    j := i;
    while j < |s| && IsSpace(s[j])
      invariant i <= j <= |s| && SkipSpace(s, j) == SkipSpace(s, i)
    {
      j := j + 1;
    }
  }

  method BeforeSpace(s: bytes, j: nat, lo: nat) returns (i: nat)
    requires lo <= j <= |s|
    ensures i == SkipSpaceBack(s, j, lo)
  {
    hide AllSpace;
    i := j;
    while i > lo && IsSpace(s[i - 1])
      invariant lo <= i <= j && SkipSpaceBack(s, i, lo) == SkipSpaceBack(s, j, lo)
    {
      i := i - 1;
    }
  }

  // ----- the budget for dropped tokens -----

  function Widths(spans: seq<Range>): (w: seq<nat>)
    ensures |w| == |spans|
  {
    if spans == [] then []
    else [if spans[0].end > spans[0].start then spans[0].end - spans[0].start else 0] + Widths(spans[1..])
  }

  function Sum(xs: seq<nat>): nat {
    if xs == [] then 0 else xs[0] + Sum(xs[1..])
  }

  /** The first span from `i` on with bytes left and overlapping the window (low, high). */
  function Payer(spans: seq<Range>, left: seq<nat>, low: nat, high: nat, i: nat): (p: nat)
    requires |left| == |spans| && i <= |spans|
    ensures i <= p <= |spans|
    ensures p < |spans| ==> left[p] > 0 && spans[p].end > low && spans[p].start < high
    ensures forall k | i <= k < p :: left[k] == 0 || spans[k].end <= low || spans[k].start >= high
    decreases |spans| - i
  {
    if i == |spans| then i
    else if left[i] == 0 || spans[i].end <= low || spans[i].start >= high then Payer(spans, left, low, high, i + 1)
    else i
  }

  /** The budget after paying for `tok`, if it can be paid. Identifier bytes never are. */
  function Pay(spans: seq<Range>, left: seq<nat>, tok: byte, low: nat, high: nat): (r: Option<seq<nat>>)
    requires |left| == |spans|
    ensures r.Some? ==> |r.value| == |spans| && !IsIdentCont(tok)
  {
    if IsIdentCont(tok) then None
    else
      var p := Payer(spans, left, low, high, 0);
      if p == |spans| then None else Some(left[p := left[p] - 1])
  }

  lemma PayingCostsOne(spans: seq<Range>, left: seq<nat>, tok: byte, low: nat, high: nat)
    requires |left| == |spans| && Pay(spans, left, tok, low, high).Some?
    ensures Sum(Pay(spans, left, tok, low, high).value) + 1 == Sum(left)
  {
    var p := Payer(spans, left, low, high, 0);
    SumUpdate(left, p, left[p] - 1);
  }

  lemma {:induction false} SumUpdate(xs: seq<nat>, p: nat, v: nat)
    requires p < |xs|
    ensures Sum(xs[p := v]) + xs[p] == Sum(xs) + v
  {
    if p > 0 {
      assert xs[p := v][1..] == xs[1..][p - 1 := v];
      SumUpdate(xs[1..], p - 1, v);
    } else {
      assert xs[0 := v][1..] == xs[1..];
    }
  }

  /** The claim state of one match. A match that dropped nothing has no spans, and every claim on it
      is refused. */
  class DroppedBudget {
    const spans: seq<Range>
    var left: seq<nat>

    ghost predicate Valid()
      reads this
    {
      |left| == |spans|
    }

    constructor (dropped: seq<Range>)
      ensures Valid() && spans == dropped && left == Widths(dropped)
    {
      spans := dropped;
      var w: seq<nat> := [];
      for i := 0 to |dropped|
        invariant w == Widths(dropped[..i])
      {
        var s := dropped[i];
        WidthsAppend(dropped[..i], s);
        assert dropped[..i + 1] == dropped[..i] + [s];
        w := w + [if s.end > s.start then s.end - s.start else 0];
      }
      assert dropped[..|dropped|] == dropped;
      left := w;
    }

    /** Spends one byte of a dropped span on the template token `tok`. */
    method Claim(tok: byte, low: nat, high: nat) returns (ok: bool)
      requires Valid()
      modifies this
      ensures Valid()
      ensures var paid := Pay(spans, old(left), tok, low, high);
              ok == paid.Some? && left == if ok then paid.value else old(left)
    {
      if IsIdentCont(tok) {
        return false;
      }
      for i := 0 to |spans|
        invariant left == old(left)
        invariant Payer(spans, left, low, high, i) == Payer(spans, left, low, high, 0)
      {
        var s := spans[i];
        if left[i] == 0 || s.end <= low || s.start >= high {
          continue;
        }
        left := left[i := left[i] - 1];
        return true;
      }
      return false;
    }

    /** An independent copy: spending it leaves this budget alone. */
    method Clone() returns (c: DroppedBudget)
      requires Valid()
      ensures fresh(c) && c.Valid() && c.spans == spans && c.left == left
    {
      c := new DroppedBudget(spans);
      c.left := left;
    }
  }

  lemma {:induction false} WidthsAppend(spans: seq<Range>, s: Range)
    ensures Widths(spans + [s]) == Widths(spans) + [if s.end > s.start then s.end - s.start else 0]
  {
    if spans == [] {
      assert [] + [s] == [s];
    } else {
      assert (spans + [s])[0] == spans[0] && (spans + [s])[1..] == spans[1..] + [s];
      WidthsAppend(spans[1..], s);
    }
  }

  /** The pattern end of the nearest literal anchor at or below `i`. */
  function WindowLow(anchors: seq<Anchor>, i: int): nat
    requires i < |anchors|
    decreases i
  {
    if i < 0 then 0 else if anchors[i].name == [] then anchors[i].patEnd else WindowLow(anchors, i - 1)
  }

  /** The pattern start of the nearest literal anchor at or above `i`. */
  function WindowHigh(anchors: seq<Anchor>, i: nat): nat
    decreases |anchors| - i
  {
    if i >= |anchors| then NO_LIMIT
    else if anchors[i].name == [] then anchors[i].patStart else WindowHigh(anchors, i + 1)
  }

  method PatWindow(anchors: seq<Anchor>, loIdx: int, hiIdx: nat) returns (low: nat, high: nat)
    requires loIdx < |anchors|
    ensures low == WindowLow(anchors, loIdx) && high == WindowHigh(anchors, hiIdx)
  {
    low, high := 0, NO_LIMIT;
    var i := loIdx;
    while i >= 0
      invariant i < |anchors| && low == 0
      invariant WindowLow(anchors, i) == WindowLow(anchors, loIdx)
    {
      if anchors[i].name == [] {
        low := anchors[i].patEnd;
        break;
      }
      i := i - 1;
    }
    var k := hiIdx;
    while k < |anchors|
      invariant high == NO_LIMIT
      invariant WindowHigh(anchors, k) == WindowHigh(anchors, hiIdx)
    {
      if anchors[k].name == [] {
        high := anchors[k].patStart;
        break;
      }
      k := k + 1;
    }
  }

  // ----- the two scans -----

  /** How far one end of the template repeated the pattern, and the budget it left. */
  datatype Scan = Scan(anchors: nat, offset: nat, left: seq<nat>)

  /** What the scans read: the template, the anchors, the captures and the dropped spans. */
  datatype Context = Context(template: bytes, anchors: seq<Anchor>, caps: map<bytes, Capture>, spans: seq<Range>)

  /** The literal anchor `a` stands in the template at `j`. */
  predicate LiteralAt(a: Anchor, s: bytes, j: nat)
    requires j <= |s|
  {
    a.name == [] && a.text != [] && a.text <= s[j..] && !BreaksRight(a.text, s, j + |a.text|)
  }

  /** The literal anchor `a` stands in the template up to `j`, not reaching below `lo`. */
  predicate LiteralUpTo(a: Anchor, s: bytes, j: nat, lo: nat)
    requires j <= |s|
  {
    && a.name == [] && a.text != [] && |a.text| <= j && j - |a.text| >= lo
    && s[j - |a.text|..j] == a.text && !BreaksLeft(a.text, s, j - |a.text|)
  }

  function HeadFrom(c: Context, ti: nat, ai: nat, left: seq<nat>): (r: Scan)
    requires ti <= |c.template| && ai <= |c.anchors| && |left| == |c.spans|
    ensures ti <= r.offset <= |c.template| && ai <= r.anchors <= |c.anchors| && |r.left| == |c.spans|
    decreases |c.template| - ti
  {
    var j := SkipSpace(c.template, ti);
    if ai == |c.anchors| || j == |c.template| then Scan(ai, ti, left)
    else
      match RefHead(c.template, j)
      case Some(ref) =>
        if IsEmptySeq(c.caps, ref.name) then HeadFrom(c, ref.at, ai, left)
        else if c.anchors[ai].name != ref.name then Scan(ai, ti, left)
        else HeadFrom(c, ref.at, ai + 1, left)
      case None =>
        var a := c.anchors[ai];
        if LiteralAt(a, c.template, j) then HeadFrom(c, j + |a.text|, ai + 1, left)
        else
          match Pay(c.spans, left, c.template[j], WindowLow(c.anchors, ai - 1), WindowHigh(c.anchors, ai))
          case Some(left') => HeadFrom(c, j + 1, ai, left')
          case None => Scan(ai, ti, left)
  }

  /** The scan from the far end, never reading below `head.offset` and never taking an anchor the head
      scan took. */
  function TailFrom(c: Context, head: Scan, tj: nat, aj: nat, left: seq<nat>): (r: Scan)
    requires head.offset <= tj <= |c.template| && head.anchors + aj <= |c.anchors| && |left| == |c.spans|
    ensures head.offset <= r.offset <= tj && aj <= r.anchors && head.anchors + r.anchors <= |c.anchors|
    ensures |r.left| == |c.spans|
    decreases tj
  {
    var j := SkipSpaceBack(c.template, tj, head.offset);
    if head.anchors + aj == |c.anchors| || j == head.offset then Scan(aj, tj, left)
    else
      var ai := |c.anchors| - 1 - aj;
      var a := c.anchors[ai];
      match RefTail(c.template, j)
      case Some(ref) =>
        if ref.at < head.offset then Scan(aj, tj, left)
        else if IsEmptySeq(c.caps, ref.name) then TailFrom(c, head, ref.at, aj, left)
        else if a.name != ref.name then Scan(aj, tj, left)
        else TailFrom(c, head, ref.at, aj + 1, left)
      case None =>
        if LiteralUpTo(a, c.template, j, head.offset) then TailFrom(c, head, j - |a.text|, aj + 1, left)
        else
          match Pay(c.spans, left, c.template[j - 1], WindowLow(c.anchors, ai), WindowHigh(c.anchors, ai + 1))
          case Some(left') => TailFrom(c, head, j - 1, aj, left')
          case None => Scan(aj, tj, left)
  }

  method ScanTemplateHead(c: Context, drop: DroppedBudget) returns (r: Scan)
    requires drop.Valid() && drop.spans == c.spans
    modifies drop
    ensures drop.Valid()
    ensures r == HeadFrom(c, 0, 0, old(drop.left)) && drop.left == r.left
  {
    hide HeadFrom, LiteralAt, IsEmptySeq, IsReference, AllSpace, Pay, WindowLow, WindowHigh, RefHead, SkipSpace;
    var ti, ai := 0, 0;
    while ai < |c.anchors|
      invariant ti <= |c.template| && ai <= |c.anchors| && drop.Valid()
      invariant HeadFrom(c, ti, ai, drop.left) == HeadFrom(c, 0, 0, old(drop.left))
      decreases |c.template| - ti
    {
      HeadStep(c, ti, ai, drop.left);
      var j := PastSpace(c.template, ti);
      if j >= |c.template| {
        break;
      }
      var ref := PlaceholderHead(c.template, j);
      if ref.Some? {
        if IsEmptySeq(c.caps, ref.value.name) {
          ti := ref.value.at;
          continue;
        }
        if c.anchors[ai].name != ref.value.name {
          break;
        }
        ti, ai := ref.value.at, ai + 1;
        continue;
      }
      var a := c.anchors[ai];
      if LiteralAt(a, c.template, j) {
        LiteralFits(a, c.template, j);
        ti, ai := j + |a.text|, ai + 1;
        continue;
      }
      var low, high := PatWindow(c.anchors, ai - 1, ai);
      var ok := drop.Claim(c.template[j], low, high);
      if !ok {
        break;
      }
      ti := j + 1;
    }
    HeadStep(c, ti, ai, drop.left);
    r := Scan(ai, ti, drop.left);
  }

  lemma LiteralFits(a: Anchor, s: bytes, j: nat)
    requires j <= |s| && LiteralAt(a, s, j)
    ensures 0 < |a.text| && j + |a.text| <= |s| && s[j..j + |a.text|] == a.text
  {
  }

  /** One step of the head scan. */
  function HeadNext(c: Context, ti: nat, ai: nat, left: seq<nat>): Scan
    requires ti <= |c.template| && ai <= |c.anchors| && |left| == |c.spans|
  {
    var j := SkipSpace(c.template, ti);
    if ai == |c.anchors| || j == |c.template| then Scan(ai, ti, left)
    else
      match RefHead(c.template, j)
      case Some(ref) =>
        if IsEmptySeq(c.caps, ref.name) then HeadFrom(c, ref.at, ai, left)
        else if c.anchors[ai].name != ref.name then Scan(ai, ti, left)
        else HeadFrom(c, ref.at, ai + 1, left)
      case None =>
        var a := c.anchors[ai];
        if LiteralAt(a, c.template, j) then HeadFrom(c, j + |a.text|, ai + 1, left)
        else
          match Pay(c.spans, left, c.template[j], WindowLow(c.anchors, ai - 1), WindowHigh(c.anchors, ai))
          case Some(left') => HeadFrom(c, j + 1, ai, left')
          case None => Scan(ai, ti, left)
  }

  lemma HeadStep(c: Context, ti: nat, ai: nat, left: seq<nat>)
    requires ti <= |c.template| && ai <= |c.anchors| && |left| == |c.spans|
    ensures HeadFrom(c, ti, ai, left) == HeadNext(c, ti, ai, left)
  {
    hide SkipSpace, RefHead, Pay, WindowLow, WindowHigh, IsEmptySeq, LiteralAt;
  }

  method ScanTemplateTail(c: Context, head: Scan, drop: DroppedBudget) returns (r: Scan)
    requires head.offset <= |c.template| && head.anchors <= |c.anchors|
    requires drop.Valid() && drop.spans == c.spans
    modifies drop
    ensures drop.Valid()
    ensures r == TailFrom(c, head, |c.template|, 0, old(drop.left)) && drop.left == r.left
  {
    hide TailFrom, LiteralUpTo, IsEmptySeq, IsReference, AllSpace, Pay, WindowLow, WindowHigh, RefTail, SkipSpaceBack;
    var tj, aj := |c.template|, 0;
    while head.anchors + aj < |c.anchors|
      invariant head.offset <= tj <= |c.template| && head.anchors + aj <= |c.anchors| && drop.Valid()
      invariant TailFrom(c, head, tj, aj, drop.left) == TailFrom(c, head, |c.template|, 0, old(drop.left))
      decreases tj
    {
      TailStep(c, head, tj, aj, drop.left);
      var j := BeforeSpace(c.template, tj, head.offset);
      if j <= head.offset {
        break;
      }
      var ai := |c.anchors| - 1 - aj;
      var a := c.anchors[ai];
      var ref := PlaceholderTail(c.template, j);
      if ref.Some? {
        if ref.value.at < head.offset {
          break;
        }
        if IsEmptySeq(c.caps, ref.value.name) {
          tj := ref.value.at;
          continue;
        }
        if a.name != ref.value.name {
          break;
        }
        tj, aj := ref.value.at, aj + 1;
        continue;
      }
      if LiteralUpTo(a, c.template, j, head.offset) {
        LiteralFitsBefore(a, c.template, j, head.offset);
        tj, aj := j - |a.text|, aj + 1;
        continue;
      }
      var low, high := PatWindow(c.anchors, ai, ai + 1);
      var ok := drop.Claim(c.template[j - 1], low, high);
      if !ok {
        break;
      }
      tj := j - 1;
    }
    TailStep(c, head, tj, aj, drop.left);
    r := Scan(aj, tj, drop.left);
  }

  lemma LiteralFitsBefore(a: Anchor, s: bytes, j: nat, lo: nat)
    requires j <= |s| && LiteralUpTo(a, s, j, lo)
    ensures 0 < |a.text| <= j && lo <= j - |a.text| && s[j - |a.text|..j] == a.text
  {
  }

  /** One step of the tail scan. */
  function TailNext(c: Context, head: Scan, tj: nat, aj: nat, left: seq<nat>): Scan
    requires head.offset <= tj <= |c.template| && head.anchors + aj <= |c.anchors| && |left| == |c.spans|
  {
    var j := SkipSpaceBack(c.template, tj, head.offset);
    if head.anchors + aj == |c.anchors| || j == head.offset then Scan(aj, tj, left)
    else
      var ai := |c.anchors| - 1 - aj;
      var a := c.anchors[ai];
      match RefTail(c.template, j)
      case Some(ref) =>
        if ref.at < head.offset then Scan(aj, tj, left)
        else if IsEmptySeq(c.caps, ref.name) then TailFrom(c, head, ref.at, aj, left)
        else if a.name != ref.name then Scan(aj, tj, left)
        else TailFrom(c, head, ref.at, aj + 1, left)
      case None =>
        if LiteralUpTo(a, c.template, j, head.offset) then TailFrom(c, head, j - |a.text|, aj + 1, left)
        else
          match Pay(c.spans, left, c.template[j - 1], WindowLow(c.anchors, ai), WindowHigh(c.anchors, ai + 1))
          case Some(left') => TailFrom(c, head, j - 1, aj, left')
          case None => Scan(aj, tj, left)
  }

  lemma TailStep(c: Context, head: Scan, tj: nat, aj: nat, left: seq<nat>)
    requires head.offset <= tj <= |c.template| && head.anchors + aj <= |c.anchors| && |left| == |c.spans|
    ensures TailFrom(c, head, tj, aj, left) == TailNext(c, head, tj, aj, left)
  {
    hide SkipSpaceBack, RefTail, Pay, WindowLow, WindowHigh, IsEmptySeq, LiteralUpTo;
  }

  /** Dropped tokens behind the last anchor, which the head scan stops short of: how far they reach,
      or the template's end when nothing but whitespace follows them. */
  function DroppedTail(c: Context, ai: nat, ti: nat, left: seq<nat>): (end: nat)
    requires ti <= |c.template| && ai <= |c.anchors| && |left| == |c.spans|
    ensures ti <= end <= |c.template|
    decreases |c.template| - ti
  {
    var j := SkipSpace(c.template, ti);
    if j == |c.template| then j
    else
      match Pay(c.spans, left, c.template[j], WindowLow(c.anchors, ai - 1), WindowHigh(c.anchors, ai))
      case None => ti
      case Some(left') => DroppedTail(c, ai, j + 1, left')
  }

  method ConsumeDroppedTail(c: Context, head: Scan, drop: DroppedBudget) returns (end: nat)
    requires head.offset <= |c.template| && head.anchors <= |c.anchors|
    requires drop.Valid() && drop.spans == c.spans
    modifies drop
    ensures end == if c.spans == [] then head.offset else DroppedTail(c, head.anchors, head.offset, old(drop.left))
  {
    hide AllSpace, Pay, WindowLow, WindowHigh, SkipSpace;
    if |drop.spans| == 0 {
      return head.offset;
    }
    var low, high := PatWindow(c.anchors, head.anchors - 1, head.anchors);
    var ti := head.offset;
    while true
      invariant head.offset <= ti <= |c.template| && drop.Valid()
      invariant DroppedTail(c, head.anchors, ti, drop.left) == DroppedTail(c, head.anchors, head.offset, old(drop.left))
      decreases |c.template| - ti
    {
      var j := PastSpace(c.template, ti);
      if j >= |c.template| {
        return j;
      }
      var ok := drop.Claim(c.template[j], low, high);
      if !ok {
        return ti;
      }
      ti := j + 1;
    }
  }
}
