/**
 The pattern used as its own template: a match is rewritten to itself. The pattern's own text, its references
 written back, repeats the anchors of the match, and what lies between its tokens is whitespace or was dropped.
 */
module PatternTemplate {
  import opened Bytes
  import opened Outcomes
  import opened SyntaxTree
  import opened MatchRecords
  import opened Derivations
  import opened PatternNames
  import opened TraceOrder
  import opened RawMatches
  import opened SpliceAnchors
  import opened SpliceScan
  import opened Splice
  import opened SpliceIdentity
  import opened MatchAnchors
  import opened DroppedWindows
  import WhereTree
  import opened WhereEval
  import opened AnchorRivals
  import opened HandleAnchors

  // ----- the pattern's own text as a template -----

  /** One dollar for a node, three for a sequence. */
  function DollarsOf(pt: PatternTree, pat: Range): nat {
    if pat in pt.placeholders && pt.placeholders[pat].IsSeq() then 3 else 1
  }

  /** The pattern's text from `at` to `hi`, its placeholders written back as references. */
  function Restored(pt: PatternTree, tr: seq<Event>, at: nat, hi: nat): bytes {
    if tr == [] then Slice(pt.source, at, hi)
    else
      match tr[0]
      case Aligned(a) =>
        Slice(pt.source, at, a.patStart) + Slice(pt.source, a.patStart, a.patEnd) + Restored(pt, tr[1..], a.patEnd, hi)
      case Bound(name, _, pat) =>
        Slice(pt.source, at, pat.start) + (Dollars(DollarsOf(pt, pat)) + name) + Restored(pt, tr[1..], pat.end, hi)
      case Skipped(_) => Restored(pt, tr[1..], at, hi)
  }

  /** The bytes between two tokens that are no whitespace, each behind the whitespace in front of it. */
  function Strays(text: bytes, gap: bytes): seq<Spaced> {
    if text == [] then []
    else if IsSpace(text[0]) then Strays(text[1..], gap + [text[0]])
    else [Spaced(gap, Dropped(text[0]))] + Strays(text[1..], [])
  }

  /** The whitespace behind the last of them. */
  function Blank(text: bytes, gap: bytes): bytes {
    if text == [] then gap else Blank(text[1..], if IsSpace(text[0]) then gap + [text[0]] else [])
  }

  function Behind(between: bytes, item: Item, more: seq<Spaced>): seq<Spaced> {
    Strays(between, []) + ([Spaced(Blank(between, []), item)] + more)
  }

  /** The same text as items: its tokens, its references, and the bytes that are neither. */
  function Pieces(pt: PatternTree, tr: seq<Event>, at: nat, hi: nat): seq<Spaced> {
    if tr == [] then Strays(Slice(pt.source, at, hi), [])
    else
      match tr[0]
      case Aligned(a) =>
        Behind(Slice(pt.source, at, a.patStart), Literal(Slice(pt.source, a.patStart, a.patEnd)), Pieces(pt, tr[1..], a.patEnd, hi))
      case Bound(name, _, pat) =>
        Behind(Slice(pt.source, at, pat.start), Ref(name, DollarsOf(pt, pat)), Pieces(pt, tr[1..], pat.end, hi))
      case Skipped(_) => Pieces(pt, tr[1..], at, hi)
  }

  function Closing(pt: PatternTree, tr: seq<Event>, at: nat, hi: nat): bytes {
    if tr == [] then Blank(Slice(pt.source, at, hi), [])
    else
      match tr[0]
      case Aligned(a) => Closing(pt, tr[1..], a.patEnd, hi)
      case Bound(_, _, pat) => Closing(pt, tr[1..], pat.end, hi)
      case Skipped(_) => Closing(pt, tr[1..], at, hi)
  }

  /** The items behind the last event with extent. */
  function Trailing(pt: PatternTree, tr: seq<Event>, src: bytes, at: nat, hi: nat): seq<Spaced> {
    if AnchorsOf(tr, src) == [] || tr == [] then Pieces(pt, tr, at, hi)
    else
      match tr[0]
      case Aligned(a) => Trailing(pt, tr[1..], src, a.patEnd, hi)
      case Bound(_, _, pat) => Trailing(pt, tr[1..], src, pat.end, hi)
      case Skipped(_) => Trailing(pt, tr[1..], src, at, hi)
  }

  lemma WrittenStep(x: Spaced, xs: seq<Spaced>, last: bytes)
    ensures Written([x] + xs, last) == x.gap + ItemBytes(x.item) + Written(xs, last)
  {
    hide ItemBytes;
    assert ([x] + xs)[1..] == xs;
  }

  lemma {:induction false} StraysWritten(text: bytes, gap: bytes, x: Spaced, more: seq<Spaced>, last: bytes)
    requires x.gap == Blank(text, gap)
    ensures Written(Strays(text, gap) + ([x] + more), last) == gap + text + ItemBytes(x.item) + Written(more, last)
    decreases |text|
  {
    hide Written, ItemBytes, IsSpace;
    var xs := [x] + more;
    if text == [] {
      assert [] + xs == xs && gap + [] == gap;
      WrittenStep(x, more, last);
    } else if IsSpace(text[0]) {
      StraysWritten(text[1..], gap + [text[0]], x, more, last);
      assert gap + [text[0]] + text[1..] == gap + text;
    } else {
      StraysWritten(text[1..], [], x, more, last);
      OneStrayWritten(gap, text, Strays(text[1..], []) + xs, ItemBytes(x.item) + Written(more, last), last);
      assert Strays(text, gap) + xs == [Spaced(gap, Dropped(text[0]))] + (Strays(text[1..], []) + xs);
      assert [] + text[1..] == text[1..];
    }
  }

  lemma OneStrayWritten(gap: bytes, text: bytes, rest: seq<Spaced>, more: bytes, last: bytes)
    requires text != [] && Written(rest, last) == text[1..] + more
    ensures Written([Spaced(gap, Dropped(text[0]))] + rest, last) == gap + text + more
  {
    hide Written;
    WrittenStep(Spaced(gap, Dropped(text[0])), rest, last);
    assert gap + [text[0]] + (text[1..] + more) == gap + text + more;
  }

  lemma {:induction false} EndStraysWritten(text: bytes, gap: bytes)
    ensures Written(Strays(text, gap), Blank(text, gap)) == gap + text
    decreases |text|
  {
    hide IsSpace;
    if text == [] {
      assert gap + [] == gap;
    } else if IsSpace(text[0]) {
      hide Written;
      EndStraysWritten(text[1..], gap + [text[0]]);
      assert gap + [text[0]] + text[1..] == gap + text;
    } else {
      hide Written;
      EndStraysWritten(text[1..], []);
      assert [] + text[1..] == text[1..] + [];
      OneStrayWritten(gap, text, Strays(text[1..], []), [], Blank(text, gap));
      assert gap + text + [] == gap + text;
    }
  }

  /** The items write the text. */
  lemma {:induction false} PiecesWritten(pt: PatternTree, tr: seq<Event>, at: nat, hi: nat)
    ensures Written(Pieces(pt, tr, at, hi), Closing(pt, tr, at, hi)) == Restored(pt, tr, at, hi)
    decreases |tr|
  {
    hide Slice, Written, Strays, Blank, DollarsOf, Dollars;
    if tr == [] {
      var text := Slice(pt.source, at, hi);
      EndStraysWritten(text, []);
      assert [] + text == text;
    } else {
      match tr[0]
      case Aligned(a) =>
        PiecesWritten(pt, tr[1..], a.patEnd, hi);
        BehindWritten(Slice(pt.source, at, a.patStart), Literal(Slice(pt.source, a.patStart, a.patEnd)),
                      Pieces(pt, tr[1..], a.patEnd, hi), Closing(pt, tr, at, hi));
      case Bound(name, _, pat) =>
        PiecesWritten(pt, tr[1..], pat.end, hi);
        BehindWritten(Slice(pt.source, at, pat.start), Ref(name, DollarsOf(pt, pat)), Pieces(pt, tr[1..], pat.end, hi),
                      Closing(pt, tr, at, hi));
      case Skipped(_) =>
        PiecesWritten(pt, tr[1..], at, hi);
    }
  }

  lemma BehindWritten(between: bytes, item: Item, more: seq<Spaced>, last: bytes)
    ensures Written(Behind(between, item, more), last) == between + ItemBytes(item) + Written(more, last)
  {
    hide Written, Strays, Blank, ItemBytes;
    StraysWritten(between, [], Spaced(Blank(between, []), item), more, last);
    assert [] + between == between;
  }

  // ----- what lies between the tokens -----

  /** Every byte of [at, to) that is no whitespace lies in a dropped span. */
  predicate OnlyDropped(pt: PatternTree, spans: seq<Range>, at: nat, to: nat) {
    forall p | at <= p < to && p < |pt.source| :: IsSpace(pt.source[p]) || In(spans, p)
  }

  /** The events stand in order, away from the dropped spans, and nothing else is between them. */
  predicate Accounts(pt: PatternTree, spans: seq<Range>, tr: seq<Event>, at: nat, hi: nat) {
    at <= hi <= |pt.source| &&
    if tr == [] then OnlyDropped(pt, spans, at, hi)
    else
      match tr[0]
      case Aligned(a) =>
        && at <= a.patStart <= a.patEnd && OnlyDropped(pt, spans, at, a.patStart)
        && StandClear(spans, Range(a.patStart, a.patEnd)) && Accounts(pt, spans, tr[1..], a.patEnd, hi)
      case Bound(_, _, pat) =>
        && at <= pat.start <= pat.end && OnlyDropped(pt, spans, at, pat.start)
        && Accounts(pt, spans, tr[1..], pat.end, hi)
      case Skipped(_) => Accounts(pt, spans, tr[1..], at, hi)
  }

  /** How many dropped bytes stand ahead of the next literal token. */
  function Ahead(pt: PatternTree, tr: seq<Event>, at: nat, hi: nat): nat {
    if tr == [] then |Strays(Slice(pt.source, at, hi), [])|
    else
      match tr[0]
      case Aligned(a) => |Strays(Slice(pt.source, at, a.patStart), [])|
      case Bound(_, _, pat) => |Strays(Slice(pt.source, at, pat.start), [])| + Ahead(pt, tr[1..], pat.end, hi)
      case Skipped(_) => Ahead(pt, tr[1..], at, hi)
  }

  function NextToken(tr: seq<Event>, hi: nat): nat {
    if tr == [] then hi else if tr[0].Aligned? then tr[0].a.patStart else NextToken(tr[1..], hi)
  }

  lemma {:induction false} StraysAreSpanned(pt: PatternTree, spans: seq<Range>, at: nat, to: nat, gap: bytes)
    requires at <= to <= |pt.source| && OnlyDropped(pt, spans, at, to)
    ensures |Strays(pt.source[at..to], gap)| <= Spanned(spans, at, to)
    decreases |pt.source| - at
  {
    hide In;
    var text := pt.source[at..to];
    if at < to {
      assert text[0] == pt.source[at] && text[1..] == pt.source[at + 1..to];
      SpannedParts(spans, at, at + 1, to);
      assert Spanned(spans, at, at) == 0;
      StraysAreSpanned(pt, spans, at + 1, to, if IsSpace(text[0]) then gap + [text[0]] else []);
    }
  }

  /** The dropped bytes ahead of the next token lie in the spans there. */
  lemma {:induction false} AheadIsSpanned(pt: PatternTree, spans: seq<Range>, tr: seq<Event>, at: nat, hi: nat)
    requires Accounts(pt, spans, tr, at, hi)
    ensures at <= NextToken(tr, hi) <= hi && Ahead(pt, tr, at, hi) <= Spanned(spans, at, NextToken(tr, hi))
    decreases |tr|
  {
    hide OnlyDropped, Strays, Spanned, StandClear;
    if tr == [] {
      StraysAreSpanned(pt, spans, at, hi, []);
    } else {
      match tr[0]
      case Aligned(a) =>
        StraysAreSpanned(pt, spans, at, a.patStart, []);
        AheadIsSpanned(pt, spans, tr[1..], a.patEnd, hi);
      case Bound(_, _, pat) =>
        AheadIsSpanned(pt, spans, tr[1..], pat.end, hi);
        StraysAreSpanned(pt, spans, at, pat.start, []);
        var to := NextToken(tr, hi);
        SpannedParts(spans, at, pat.start, to);
        SpannedParts(spans, pat.start, pat.end, to);
      case Skipped(_) =>
        AheadIsSpanned(pt, spans, tr[1..], at, hi);
    }
  }

  // ----- what the splice reads at the anchors -----

  /** What an event contributes to the template is what the splice reads at its anchor. */
  predicate Repeated(pt: PatternTree, src: bytes, caps: map<bytes, Capture>, e: Event) {
    match e
    case Aligned(a) => a.srcStart < a.srcEnd && Slice(src, a.srcStart, a.srcEnd) == Slice(pt.source, a.patStart, a.patEnd)
    case Bound(name, cap, _) => name != [] && name in caps && caps[name] == cap && (cap.end <= cap.start ==> cap.text == [])
    case Skipped(_) => true
  }

  predicate AllRepeated(pt: PatternTree, src: bytes, caps: map<bytes, Capture>, tr: seq<Event>) {
    forall e | e in tr :: Repeated(pt, src, caps, e)
  }

  lemma FirstRepeated(pt: PatternTree, src: bytes, caps: map<bytes, Capture>, tr: seq<Event>)
    requires tr != [] && AllRepeated(pt, src, caps, tr)
    ensures Repeated(pt, src, caps, tr[0]) && AllRepeated(pt, src, caps, tr[1..])
  {
    hide Repeated;
  }

  lemma AnchorsMove(anchors: seq<Anchor>, ai: nat, first: seq<Anchor>, rest: seq<Anchor>)
    requires ai <= |anchors| && anchors[ai..] == first + rest
    ensures ai + |first| <= |anchors| && anchors[ai + |first|..] == rest
    ensures first != [] ==> anchors[ai] == first[0]
  {
    assert |anchors[ai..]| == |first| + |rest|;
    assert anchors[ai..][|first|..] == rest;
  }

  lemma AlignedAnchor(pt: PatternTree, src: bytes, caps: map<bytes, Capture>, e: Event)
    requires e.Aligned? && Repeated(pt, src, caps, e)
    ensures AnchorAt(e, src) == [LiteralAnchor(e.a, src)]
    ensures LiteralAnchor(e.a, src).text == Slice(pt.source, e.a.patStart, e.a.patEnd) && LiteralAnchor(e.a, src).name == []
  {
    hide Slice;
  }

  lemma BoundAnchor(pt: PatternTree, src: bytes, caps: map<bytes, Capture>, e: Event)
    requires e.Bound? && Repeated(pt, src, caps, e)
    ensures e.name != []
    ensures if IsEmptySeq(caps, e.name) then AnchorAt(e, src) == []
            else |AnchorAt(e, src)| == 1 && AnchorAt(e, src)[0].name == e.name
  {
  }

  lemma NoAnchor(e: Event, src: bytes)
    requires e.Skipped?
    ensures AnchorAt(e, src) == []
  {
  }

  /** The window ends where the next token starts. */
  lemma {:induction false} WindowEnds(pt: PatternTree, src: bytes, caps: map<bytes, Capture>, tr: seq<Event>,
          anchors: seq<Anchor>, ai: nat, hi: nat)
    requires ai <= |anchors| && anchors[ai..] == AnchorsOf(tr, src) && AllRepeated(pt, src, caps, tr)
    requires hi <= NO_LIMIT
    ensures NextToken(tr, hi) == WindowHigh(anchors, ai) || (NextToken(tr, hi) == hi && WindowHigh(anchors, ai) == NO_LIMIT)
    decreases |tr|
  {
    hide AllRepeated, Repeated, AnchorAt;
    if tr != [] {
      FirstRepeated(pt, src, caps, tr);
      AnchorsMove(anchors, ai, AnchorAt(tr[0], src), AnchorsOf(tr[1..], src));
      if tr[0].Aligned? {
        AlignedAnchor(pt, src, caps, tr[0]);
      } else {
        if tr[0].Bound? {
          BoundAnchor(pt, src, caps, tr[0]);
        } else {
          NoAnchor(tr[0], src);
        }
        WindowEnds(pt, src, caps, tr[1..], anchors, ai + |AnchorAt(tr[0], src)|, hi);
      }
    }
  }

  // ----- dropped bytes are paid for -----

  /** The budget after paying for the dropped bytes ahead of anchor `ai`. */
  function Paid(c: Context, ds: seq<Spaced>, ai: nat, left: seq<nat>): Option<seq<nat>>
    requires ai <= |c.anchors| && |left| == |c.spans| && AllDrops(ds)
    ensures Paid(c, ds, ai, left).Some? ==> |Paid(c, ds, ai, left).value| == |c.spans|
  {
    if ds == [] then Some(left)
    else
      match Pay(c.spans, left, ds[0].item.b, WindowLow(c.anchors, ai - 1), WindowHigh(c.anchors, ai))
      case None => None
      case Some(paid) => Paid(c, ds[1..], ai, paid)
  }

  predicate Payable(ds: seq<Spaced>) {
    AllDrops(ds) && forall x | x in ds :: !IsIdentCont(x.item.b)
  }

  lemma {:induction false} PaysAll(c: Context, ds: seq<Spaced>, ai: nat, left: seq<nat>)
    requires ai <= |c.anchors| && |left| == |c.spans| && Payable(ds)
    requires var low, high := WindowLow(c.anchors, ai - 1), WindowHigh(c.anchors, ai);
             Avail(c.spans, left, low, high, 0) >= |ds| && Untouched(c.spans, left, high)
    ensures var paid, low, high := Paid(c, ds, ai, left), WindowLow(c.anchors, ai - 1), WindowHigh(c.anchors, ai);
            && paid.Some? && Avail(c.spans, paid.value, low, high, 0) == Avail(c.spans, left, low, high, 0) - |ds|
            && Untouched(c.spans, paid.value, high)
    decreases |ds|
  {
    hide Pay, WindowLow, WindowHigh, Avail, Untouched, IsIdentCont;
    if ds != [] {
      assert ds[0] in ds;
      PayableIff(c.spans, left, ds[0].item.b, WindowLow(c.anchors, ai - 1), WindowHigh(c.anchors, ai));
      forall x | x in ds[1..] ensures x in ds {}
      PaysAll(c, ds[1..], ai, Pay(c.spans, left, ds[0].item.b, WindowLow(c.anchors, ai - 1), WindowHigh(c.anchors, ai)).value);
    }
  }

  /** The next literal token of the items, unless something bound with extent stands ahead of it. */
  function NextLiteral(caps: map<bytes, Capture>, xs: seq<Spaced>): Option<bytes> {
    if xs == [] then None
    else
      match xs[0].item
      case Literal(text) => Some(text)
      case Ref(name, _) => if IsEmptySeq(caps, name) then NextLiteral(caps, xs[1..]) else None
      case Dropped(_) => NextLiteral(caps, xs[1..])
  }

  /** No dropped byte is where the text already reads like the next literal token. */
  predicate Distinct(caps: map<bytes, Capture>, xs: seq<Spaced>, last: bytes) {
    xs != [] ==>
      && Distinct(caps, xs[1..], last)
      && (xs[0].item.Dropped? ==>
            match NextLiteral(caps, xs[1..])
            case None => true
            case Some(text) => !(text <= [xs[0].item.b] + Written(xs[1..], last)))
  }

  lemma {:induction false} PastDrops(caps: map<bytes, Capture>, ds: seq<Spaced>, more: seq<Spaced>, last: bytes)
    requires AllDrops(ds)
    ensures NextLiteral(caps, ds + more) == NextLiteral(caps, more)
    ensures Distinct(caps, ds + more, last) ==> Distinct(caps, more, last)
    ensures WellSpaced(ds + more, last) ==> WellSpaced(more, last) && Payable(ds)
    decreases |ds|
  {
    hide Written, IsEmptySeq, WellSpaced, IsIdentCont, IsSpace;
    if ds == [] {
      assert ds + more == more;
    } else {
      assert ds[0] in ds && (ds + more)[1..] == ds[1..] + more && (ds + more)[0] == ds[0];
      forall x | x in ds[1..] ensures x in ds {}
      PastDrops(caps, ds[1..], more, last);
      if WellSpaced(ds + more, last) {
        UnfoldSpaced(ds + more, last);
        FitsIsPayable(ds[0].item);
        forall x | x in ds ensures x in ds[1..] || x == ds[0] {}
      }
    }
  }

  lemma FitsIsPayable(x: Item)
    requires x.Dropped? && ItemFits(x)
    ensures !IsIdentCont(x.b)
  {
    hide IsIdentCont;
  }

  /** The scan passes over dropped bytes it can pay for. */
  lemma {:induction false} DropsRepeat(c: Context, ds: seq<Spaced>, more: seq<Spaced>, last: bytes, ai: nat, left: seq<nat>,
          rest: seq<Spaced>, left': seq<nat>)
    requires ai < |c.anchors| && |left| == |c.spans| && AllDrops(ds) && Distinct(c.caps, ds + more, last)
    requires c.anchors[ai].name == [] ==> NextLiteral(c.caps, more) == Some(c.anchors[ai].text)
    requires Paid(c, ds, ai, left).Some? && Repeats(c, more, last, ai, Paid(c, ds, ai, left).value, rest, left')
    ensures Repeats(c, ds + more, last, ai, left, rest, left')
    decreases |ds|
  {
    hide Written, Pay, WindowLow, WindowHigh, IsEmptySeq, NextLiteral;
    if ds == [] {
      assert ds + more == more;
    } else {
      assert ds[0] in ds && (ds + more)[1..] == ds[1..] + more && (ds + more)[0] == ds[0];
      forall x | x in ds[1..] ensures x in ds {}
      var paid := Pay(c.spans, left, ds[0].item.b, WindowLow(c.anchors, ai - 1), WindowHigh(c.anchors, ai));
      DropsRepeat(c, ds[1..], more, last, ai, paid.value, rest, left');
      PastDrops(c.caps, ds[1..], more, last);
    }
  }

  lemma RepeatsDone(c: Context, xs: seq<Spaced>, last: bytes, left: seq<nat>)
    requires |left| == |c.spans|
    ensures Repeats(c, xs, last, |c.anchors|, left, xs, left)
  {
  }

  lemma RepeatsLiteral(c: Context, x: Spaced, xs: seq<Spaced>, last: bytes, ai: nat, left: seq<nat>, rest: seq<Spaced>,
          left': seq<nat>)
    requires ai < |c.anchors| && |left| == |c.spans| && x.item.Literal?
    requires c.anchors[ai].name == [] && c.anchors[ai].text == x.item.text && Repeats(c, xs, last, ai + 1, left, rest, left')
    ensures Repeats(c, [x] + xs, last, ai, left, rest, left')
  {
    hide Written, Pay, WindowLow, WindowHigh;
    assert ([x] + xs)[1..] == xs;
  }

  lemma RepeatsRef(c: Context, x: Spaced, xs: seq<Spaced>, last: bytes, ai: nat, left: seq<nat>, rest: seq<Spaced>,
          left': seq<nat>)
    requires ai < |c.anchors| && |left| == |c.spans| && x.item.Ref?
    requires if IsEmptySeq(c.caps, x.item.name) then Repeats(c, xs, last, ai, left, rest, left')
             else c.anchors[ai].name == x.item.name && Repeats(c, xs, last, ai + 1, left, rest, left')
    ensures Repeats(c, [x] + xs, last, ai, left, rest, left')
  {
    hide Written, Pay, WindowLow, WindowHigh, IsEmptySeq;
    assert ([x] + xs)[1..] == xs;
  }

  lemma {:induction false} StraysDrop(text: bytes, gap: bytes)
    ensures AllDrops(Strays(text, gap))
    decreases |text|
  {
    hide IsSpace;
    if text != [] {
      StraysDrop(text[1..], if IsSpace(text[0]) then gap + [text[0]] else []);
    }
  }

  // ----- the items repeat the anchors -----

  /** The budget covers the dropped bytes ahead of the next token, and nothing behind it has been spent. */
  predicate Funded(c: Context, pt: PatternTree, tr: seq<Event>, at: nat, hi: nat, ai: nat, left: seq<nat>)
    requires ai <= |c.anchors| && |left| == |c.spans|
  {
    var low, high := WindowLow(c.anchors, ai - 1), WindowHigh(c.anchors, ai);
    Avail(c.spans, left, low, high, 0) >= Ahead(pt, tr, at, hi) && Untouched(c.spans, left, high)
  }

  /** Where the scan stands: the items ahead are those of the events left, and they are funded. */
  predicate Standing(c: Context, pt: PatternTree, src: bytes, tr: seq<Event>, at: nat, hi: nat, last: bytes, ai: nat, left: seq<nat>) {
    && ai <= |c.anchors| && c.anchors[ai..] == AnchorsOf(tr, src) && |left| == |c.spans| && hi <= NO_LIMIT
    && AllRepeated(pt, src, c.caps, tr) && Accounts(pt, c.spans, tr, at, hi)
    && WellSpaced(Pieces(pt, tr, at, hi), last) && Distinct(c.caps, Pieces(pt, tr, at, hi), last)
    && Funded(c, pt, tr, at, hi, ai, left)
  }

  /** Behind a literal token the next window is funded. */
  lemma PastToken(c: Context, pt: PatternTree, src: bytes, tr: seq<Event>, at: nat, hi: nat, ai: nat, left: seq<nat>)
    requires ai < |c.anchors| && c.anchors[ai..] == AnchorsOf(tr, src) && |left| == |c.spans| && hi <= NO_LIMIT
    requires AllRepeated(pt, src, c.caps, tr) && Accounts(pt, c.spans, tr, at, hi) && tr != [] && tr[0].Aligned?
    requires Untouched(c.spans, left, tr[0].a.patStart)
    ensures c.anchors[ai + 1..] == AnchorsOf(tr[1..], src) && c.anchors[ai] == LiteralAnchor(tr[0].a, src)
    ensures Funded(c, pt, tr[1..], NextAt(tr[0], at), hi, ai + 1, left)
  {
    hide Avail, Spanned, Ahead, OnlyDropped, Slice, AllRepeated, Repeated;
    var a := tr[0].a;
    FirstRepeated(pt, src, c.caps, tr);
    AlignedAnchor(pt, src, c.caps, tr[0]);
    AnchorsMove(c.anchors, ai, AnchorAt(tr[0], src), AnchorsOf(tr[1..], src));
    AheadIsSpanned(pt, c.spans, tr[1..], a.patEnd, hi);
    WindowEnds(pt, src, c.caps, tr[1..], c.anchors, ai + 1, hi);
    var to := NextToken(tr[1..], hi);
    NextWindowFunded(c.spans, left, Range(a.patStart, a.patEnd), a.patEnd, to, WindowHigh(c.anchors, ai + 1));
    assert WindowLow(c.anchors, ai) == a.patEnd;
  }

  /** A bound name leaves the window as it is. */
  lemma PastName(c: Context, ai: nat)
    requires ai < |c.anchors| && c.anchors[ai].name != []
    ensures WindowLow(c.anchors, ai) == WindowLow(c.anchors, ai - 1) && WindowHigh(c.anchors, ai) == WindowHigh(c.anchors, ai + 1)
  {
  }

  /** The literal the scan waits for is the next one of the items. */
  lemma {:induction false} NextLiteralIs(caps: map<bytes, Capture>, pt: PatternTree, src: bytes, tr: seq<Event>, at: nat, hi: nat)
    requires AllRepeated(pt, src, caps, tr) && AnchorsOf(tr, src) != [] && AnchorsOf(tr, src)[0].name == []
    ensures NextLiteral(caps, Pieces(pt, tr, at, hi)) == Some(AnchorsOf(tr, src)[0].text)
    decreases |tr|
  {
    hide AllRepeated, Repeated, Slice, Strays, Blank, AnchorAt, IsEmptySeq, DollarsOf;
    FirstRepeated(pt, src, caps, tr);
    match tr[0]
    case Aligned(a) =>
      AlignedAnchor(pt, src, caps, tr[0]);
      NextBehind(caps, Slice(pt.source, at, a.patStart), Literal(Slice(pt.source, a.patStart, a.patEnd)), Pieces(pt, tr[1..], a.patEnd, hi));
    case Bound(name, _, pat) =>
      BoundAnchor(pt, src, caps, tr[0]);
      NextLiteralIs(caps, pt, src, tr[1..], pat.end, hi);
      NextBehind(caps, Slice(pt.source, at, pat.start), Ref(name, DollarsOf(pt, pat)), Pieces(pt, tr[1..], pat.end, hi));
    case Skipped(_) =>
      NoAnchor(tr[0], src);
      NextLiteralIs(caps, pt, src, tr[1..], at, hi);
  }

  lemma NextBehind(caps: map<bytes, Capture>, between: bytes, item: Item, more: seq<Spaced>)
    ensures item.Literal? ==> NextLiteral(caps, Behind(between, item, more)) == Some(item.text)
    ensures item.Ref? && IsEmptySeq(caps, item.name) ==> NextLiteral(caps, Behind(between, item, more)) == NextLiteral(caps, more)
  {
    hide Strays, Blank, IsEmptySeq, Written, WellSpaced;
    var x := Spaced(Blank(between, []), item);
    StraysDrop(between, []);
    PastDrops(caps, Strays(between, []), [x] + more, []);
    assert ([x] + more)[1..] == more;
  }

  /** What stands behind the gap in front of an item. */
  lemma BehindFits(caps: map<bytes, Capture>, between: bytes, item: Item, more: seq<Spaced>, last: bytes)
    requires WellSpaced(Behind(between, item, more), last) && Distinct(caps, Behind(between, item, more), last)
    ensures Payable(Strays(between, [])) && WellSpaced(more, last) && Distinct(caps, more, last)
  {
    hide Strays, Blank, Written, ItemFits, IsSpace, IsIdentCont, NextLiteral;
    var x := Spaced(Blank(between, []), item);
    StraysDrop(between, []);
    PastDrops(caps, Strays(between, []), [x] + more, last);
    UnfoldSpaced([x] + more, last);
    assert ([x] + more)[1..] == more;
  }

  // One step of the scan over a token, a bound name and a skipped comment.

  lemma StandsOn(c: Context, pt: PatternTree, src: bytes, tr: seq<Event>, at: nat, hi: nat, last: bytes, ai: nat, left: seq<nat>)
    requires Standing(c, pt, src, tr, at, hi, last, ai, left)
    ensures ai <= |c.anchors| && c.anchors[ai..] == AnchorsOf(tr, src) && |left| == |c.spans| && hi <= NO_LIMIT
    ensures AllRepeated(pt, src, c.caps, tr) && Accounts(pt, c.spans, tr, at, hi)
    ensures WellSpaced(Pieces(pt, tr, at, hi), last) && Distinct(c.caps, Pieces(pt, tr, at, hi), last)
    ensures Funded(c, pt, tr, at, hi, ai, left)
  {
    hide AnchorsOf, AllRepeated, Accounts, WellSpaced, Distinct, Pieces, Funded;
  }

  lemma Stands(c: Context, pt: PatternTree, src: bytes, tr: seq<Event>, at: nat, hi: nat, last: bytes, ai: nat, left: seq<nat>)
    requires ai <= |c.anchors| && c.anchors[ai..] == AnchorsOf(tr, src) && |left| == |c.spans| && hi <= NO_LIMIT
    requires AllRepeated(pt, src, c.caps, tr) && Accounts(pt, c.spans, tr, at, hi)
    requires WellSpaced(Pieces(pt, tr, at, hi), last) && Distinct(c.caps, Pieces(pt, tr, at, hi), last)
    requires Funded(c, pt, tr, at, hi, ai, left)
    ensures Standing(c, pt, src, tr, at, hi, last, ai, left)
  {
    hide AnchorsOf, AllRepeated, Accounts, WellSpaced, Distinct, Pieces, Funded;
  }

  lemma TrailingStep(pt: PatternTree, tr: seq<Event>, src: bytes, at: nat, hi: nat)
    requires tr != [] && AnchorsOf(tr, src) != []
    ensures Trailing(pt, tr, src, at, hi) == Trailing(pt, tr[1..], src, NextAt(tr[0], at), hi)
  {
    hide Pieces, AnchorsOf;
  }

  /** Where the pattern's text goes on behind an event. */
  function NextAt(e: Event, at: nat): nat {
    match e
    case Aligned(a) => a.patEnd
    case Bound(_, _, pat) => pat.end
    case Skipped(_) => at
  }

  function Between(pt: PatternTree, e: Event, at: nat): bytes {
    match e
    case Aligned(a) => Slice(pt.source, at, a.patStart)
    case Bound(_, _, pat) => Slice(pt.source, at, pat.start)
    case Skipped(_) => []
  }

  function ItemOf(pt: PatternTree, e: Event): Item
    requires !e.Skipped?
  {
    match e
    case Aligned(a) => Literal(Slice(pt.source, a.patStart, a.patEnd))
    case Bound(name, _, pat) => Ref(name, DollarsOf(pt, pat))
  }

  lemma PiecesStep(pt: PatternTree, tr: seq<Event>, at: nat, hi: nat)
    requires tr != []
    ensures var more := Pieces(pt, tr[1..], NextAt(tr[0], at), hi);
            Pieces(pt, tr, at, hi) == if tr[0].Skipped? then more else Behind(Between(pt, tr[0], at), ItemOf(pt, tr[0]), more)
  {
    hide Behind, Slice, DollarsOf;
  }

  lemma AccountsStep(pt: PatternTree, spans: seq<Range>, tr: seq<Event>, at: nat, hi: nat)
    requires tr != [] && Accounts(pt, spans, tr, at, hi)
    ensures Accounts(pt, spans, tr[1..], NextAt(tr[0], at), hi)
  {
    hide OnlyDropped, StandClear;
  }

  lemma AheadStep(pt: PatternTree, tr: seq<Event>, at: nat, hi: nat)
    requires tr != []
    ensures Ahead(pt, tr, at, hi)
         == if tr[0].Aligned? then |Strays(Between(pt, tr[0], at), [])|
            else |Strays(Between(pt, tr[0], at), [])| + Ahead(pt, tr[1..], NextAt(tr[0], at), hi)
  {
    hide Slice;
  }

  lemma FundedMeans(c: Context, pt: PatternTree, tr: seq<Event>, at: nat, hi: nat, ai: nat, left: seq<nat>)
    requires ai <= |c.anchors| && |left| == |c.spans|
    ensures Funded(c, pt, tr, at, hi, ai, left)
       <==> Avail(c.spans, left, WindowLow(c.anchors, ai - 1), WindowHigh(c.anchors, ai), 0) >= Ahead(pt, tr, at, hi)
            && Untouched(c.spans, left, WindowHigh(c.anchors, ai))
  {
    hide Avail, Untouched, WindowLow, WindowHigh, Ahead;
  }

  /** Pays for the dropped bytes in front of an event. */
  lemma PaysAhead(c: Context, pt: PatternTree, src: bytes, tr: seq<Event>, at: nat, hi: nat, last: bytes, ai: nat, left: seq<nat>)
    returns (paid: seq<nat>)
    requires Standing(c, pt, src, tr, at, hi, last, ai, left) && tr != [] && !tr[0].Skipped?
    ensures var ds, low, high := Strays(Between(pt, tr[0], at), []), WindowLow(c.anchors, ai - 1), WindowHigh(c.anchors, ai);
            && |paid| == |c.spans| && AllDrops(ds) && Paid(c, ds, ai, left) == Some(paid)
            && Avail(c.spans, paid, low, high, 0) + |ds| >= Ahead(pt, tr, at, hi) && Untouched(c.spans, paid, high)
  {
    hide *;
    StandsOn(c, pt, src, tr, at, hi, last, ai, left);
    PiecesStep(pt, tr, at, hi);
    BehindFits(c.caps, Between(pt, tr[0], at), ItemOf(pt, tr[0]), Pieces(pt, tr[1..], NextAt(tr[0], at), hi), last);
    FundedMeans(c, pt, tr, at, hi, ai, left);
    AheadStep(pt, tr, at, hi);
    PayableDrops(Strays(Between(pt, tr[0], at), []));
    PaysAll(c, Strays(Between(pt, tr[0], at), []), ai, left);
    paid := Paid(c, Strays(Between(pt, tr[0], at), []), ai, left).value;
  }

  lemma PayableDrops(ds: seq<Spaced>)
    requires Payable(ds)
    ensures AllDrops(ds)
  {
  }

  lemma NextStands(c: Context, pt: PatternTree, src: bytes, tr: seq<Event>, at: nat, hi: nat, last: bytes, ai: nat, left: seq<nat>,
          ai': nat, paid: seq<nat>)
    requires Standing(c, pt, src, tr, at, hi, last, ai, left) && tr != [] && ai' <= |c.anchors| && |paid| == |c.spans|
    requires c.anchors[ai'..] == AnchorsOf(tr[1..], src) && Funded(c, pt, tr[1..], NextAt(tr[0], at), hi, ai', paid)
    ensures Standing(c, pt, src, tr[1..], NextAt(tr[0], at), hi, last, ai', paid)
  {
    hide *;
    StandsOn(c, pt, src, tr, at, hi, last, ai, left);
    FirstRepeated(pt, src, c.caps, tr);
    AccountsStep(pt, c.spans, tr, at, hi);
    PiecesStep(pt, tr, at, hi);
    if !tr[0].Skipped? {
      BehindFits(c.caps, Between(pt, tr[0], at), ItemOf(pt, tr[0]), Pieces(pt, tr[1..], NextAt(tr[0], at), hi), last);
    }
    Stands(c, pt, src, tr[1..], NextAt(tr[0], at), hi, last, ai', paid);
  }

  lemma TokenStands(c: Context, pt: PatternTree, src: bytes, tr: seq<Event>, at: nat, hi: nat, last: bytes, ai: nat, left: seq<nat>)
    returns (paid: seq<nat>)
    requires Standing(c, pt, src, tr, at, hi, last, ai, left) && tr != [] && tr[0].Aligned?
    ensures ai < |c.anchors| && c.anchors[ai] == LiteralAnchor(tr[0].a, src) && |paid| == |c.spans|
    ensures AllDrops(Strays(Between(pt, tr[0], at), [])) && Paid(c, Strays(Between(pt, tr[0], at), []), ai, left) == Some(paid)
    ensures Standing(c, pt, src, tr[1..], NextAt(tr[0], at), hi, last, ai + 1, paid)
  {
    hide *;
    paid := PaysAhead(c, pt, src, tr, at, hi, last, ai, left);
    StandsOn(c, pt, src, tr, at, hi, last, ai, left);
    FirstRepeated(pt, src, c.caps, tr);
    TokenIsNext(c, pt, src, tr, ai, hi);
    PastToken(c, pt, src, tr, at, hi, ai, paid);
    NextStands(c, pt, src, tr, at, hi, last, ai, left, ai + 1, paid);
  }

  lemma TokenIsNext(c: Context, pt: PatternTree, src: bytes, tr: seq<Event>, ai: nat, hi: nat)
    requires ai <= |c.anchors| && c.anchors[ai..] == AnchorsOf(tr, src) && tr != [] && tr[0].Aligned?
    requires AllRepeated(pt, src, c.caps, tr)
    ensures ai < |c.anchors| && WindowHigh(c.anchors, ai) == tr[0].a.patStart
  {
    hide AllRepeated, Repeated, Slice;
    FirstRepeated(pt, src, c.caps, tr);
    AlignedAnchor(pt, src, c.caps, tr[0]);
    AnchorsMove(c.anchors, ai, AnchorAt(tr[0], src), AnchorsOf(tr[1..], src));
  }

  lemma TokenRepeats(c: Context, pt: PatternTree, src: bytes, tr: seq<Event>, at: nat, hi: nat, last: bytes, ai: nat, left: seq<nat>,
          paid: seq<nat>, rest: seq<Spaced>, left': seq<nat>)
    requires Standing(c, pt, src, tr, at, hi, last, ai, left) && tr != [] && tr[0].Aligned?
    requires ai < |c.anchors| && c.anchors[ai] == LiteralAnchor(tr[0].a, src) && |paid| == |c.spans|
    requires AllDrops(Strays(Between(pt, tr[0], at), [])) && Paid(c, Strays(Between(pt, tr[0], at), []), ai, left) == Some(paid)
    requires Repeats(c, Pieces(pt, tr[1..], NextAt(tr[0], at), hi), last, ai + 1, paid, rest, left')
    ensures Repeats(c, Pieces(pt, tr, at, hi), last, ai, left, rest, left')
  {
    hide *;
    StandsOn(c, pt, src, tr, at, hi, last, ai, left);
    FirstRepeated(pt, src, c.caps, tr);
    AlignedAnchor(pt, src, c.caps, tr[0]);
    PiecesStep(pt, tr, at, hi);
    ItemBehind(c, pt, tr, at, hi, last, ai, left, paid, rest, left', LiteralAnchor(tr[0].a, src).text);
  }

  /** The dropped bytes in front of an item, and the item itself, repeat what the scan waits for. */
  lemma ItemBehind(c: Context, pt: PatternTree, tr: seq<Event>, at: nat, hi: nat, last: bytes, ai: nat, left: seq<nat>,
          paid: seq<nat>, rest: seq<Spaced>, left': seq<nat>, text: bytes)
    requires tr != [] && ai < |c.anchors| && |left| == |c.spans| == |paid| && tr[0].Aligned?
    requires c.anchors[ai].name == [] && c.anchors[ai].text == text == Slice(pt.source, tr[0].a.patStart, tr[0].a.patEnd)
    requires AllDrops(Strays(Between(pt, tr[0], at), [])) && Paid(c, Strays(Between(pt, tr[0], at), []), ai, left) == Some(paid)
    requires Repeats(c, Pieces(pt, tr[1..], NextAt(tr[0], at), hi), last, ai + 1, paid, rest, left')
    requires Distinct(c.caps, Pieces(pt, tr, at, hi), last)
    requires Pieces(pt, tr, at, hi) == Behind(Between(pt, tr[0], at), ItemOf(pt, tr[0]), Pieces(pt, tr[1..], NextAt(tr[0], at), hi))
    ensures Repeats(c, Pieces(pt, tr, at, hi), last, ai, left, rest, left')
  {
    hide Repeats, Distinct, Pieces, Strays, Blank, Paid, Slice, Between, NextAt, AllDrops;
    var more, x := Pieces(pt, tr[1..], NextAt(tr[0], at), hi), Spaced(Blank(Between(pt, tr[0], at), []), ItemOf(pt, tr[0]));
    assert x.item == Literal(text);
    RepeatsLiteral(c, x, more, last, ai, paid, rest, left');
    assert ([x] + more)[0] == x;
    DropsRepeat(c, Strays(Between(pt, tr[0], at), []), [x] + more, last, ai, left, rest, left');
  }

  lemma NameStands(c: Context, pt: PatternTree, src: bytes, tr: seq<Event>, at: nat, hi: nat, last: bytes, ai: nat, left: seq<nat>)
    returns (paid: seq<nat>, ai': nat)
    requires Standing(c, pt, src, tr, at, hi, last, ai, left) && tr != [] && tr[0].Bound? && AnchorsOf(tr, src) != []
    ensures |paid| == |c.spans| && ai < |c.anchors|
    ensures AllDrops(Strays(Between(pt, tr[0], at), [])) && Paid(c, Strays(Between(pt, tr[0], at), []), ai, left) == Some(paid)
    ensures ai' == (if IsEmptySeq(c.caps, tr[0].name) then ai else ai + 1) <= |c.anchors|
    ensures !IsEmptySeq(c.caps, tr[0].name) ==> c.anchors[ai].name == tr[0].name != []
    ensures Standing(c, pt, src, tr[1..], NextAt(tr[0], at), hi, last, ai', paid)
  {
    hide *;
    paid := PaysAhead(c, pt, src, tr, at, hi, last, ai, left);
    StandsOn(c, pt, src, tr, at, hi, last, ai, left);
    FirstRepeated(pt, src, c.caps, tr);
    BoundAnchor(pt, src, c.caps, tr[0]);
    AnchorsSplit(tr, src);
    AnchorsMove(c.anchors, ai, AnchorAt(tr[0], src), AnchorsOf(tr[1..], src));
    AheadStep(pt, tr, at, hi);
    ai' := ai + |AnchorAt(tr[0], src)|;
    if !IsEmptySeq(c.caps, tr[0].name) {
      PastName(c, ai);
    }
    FundedMeans(c, pt, tr[1..], NextAt(tr[0], at), hi, ai', paid);
    NextStands(c, pt, src, tr, at, hi, last, ai, left, ai', paid);
  }

  lemma AnchorsSplit(tr: seq<Event>, src: bytes)
    requires tr != []
    ensures AnchorsOf(tr, src) == AnchorAt(tr[0], src) + AnchorsOf(tr[1..], src)
  {
    hide AnchorAt;
  }

  lemma NameRepeats(c: Context, pt: PatternTree, src: bytes, tr: seq<Event>, at: nat, hi: nat, last: bytes, ai: nat, left: seq<nat>,
          paid: seq<nat>, ai': nat, rest: seq<Spaced>, left': seq<nat>)
    requires Standing(c, pt, src, tr, at, hi, last, ai, left) && tr != [] && tr[0].Bound? && AnchorsOf(tr, src) != []
    requires |paid| == |c.spans| && ai < |c.anchors|
    requires AllDrops(Strays(Between(pt, tr[0], at), [])) && Paid(c, Strays(Between(pt, tr[0], at), []), ai, left) == Some(paid)
    requires ai' == (if IsEmptySeq(c.caps, tr[0].name) then ai else ai + 1) <= |c.anchors|
    requires !IsEmptySeq(c.caps, tr[0].name) ==> c.anchors[ai].name == tr[0].name != []
    requires Repeats(c, Pieces(pt, tr[1..], NextAt(tr[0], at), hi), last, ai', paid, rest, left')
    ensures Repeats(c, Pieces(pt, tr, at, hi), last, ai, left, rest, left')
  {
    hide *;
    StandsOn(c, pt, src, tr, at, hi, last, ai, left);
    PiecesStep(pt, tr, at, hi);
    var ds, more := Strays(Between(pt, tr[0], at), []), Pieces(pt, tr[1..], NextAt(tr[0], at), hi);
    var x := Spaced(Blank(Between(pt, tr[0], at), []), ItemOf(pt, tr[0]));
    NameItem(pt, tr[0]);
    RepeatsRef(c, x, more, last, ai, paid, rest, left');
    assert c.anchors[ai..][0] == c.anchors[ai];
    BehindIs(Between(pt, tr[0], at), ItemOf(pt, tr[0]), more);
    if c.anchors[ai].name == [] {
      NextLiteralIs(c.caps, pt, src, tr, at, hi);
      PastDrops(c.caps, ds, [x] + more, last);
    }
    DropsRepeat(c, ds, [x] + more, last, ai, left, rest, left');
  }

  lemma NameItem(pt: PatternTree, e: Event)
    requires e.Bound?
    ensures ItemOf(pt, e).Ref? && ItemOf(pt, e).name == e.name
  {
  }

  lemma BehindIs(between: bytes, item: Item, more: seq<Spaced>)
    ensures Behind(between, item, more) == Strays(between, []) + ([Spaced(Blank(between, []), item)] + more)
  {
    hide Strays, Blank;
  }

  lemma SkippedStands(c: Context, pt: PatternTree, src: bytes, tr: seq<Event>, at: nat, hi: nat, last: bytes, ai: nat, left: seq<nat>)
    requires Standing(c, pt, src, tr, at, hi, last, ai, left) && tr != [] && tr[0].Skipped?
    ensures Standing(c, pt, src, tr[1..], NextAt(tr[0], at), hi, last, ai, left)
    ensures Pieces(pt, tr, at, hi) == Pieces(pt, tr[1..], NextAt(tr[0], at), hi)
  {
    hide *;
    StandsOn(c, pt, src, tr, at, hi, last, ai, left);
    PiecesStep(pt, tr, at, hi);
    NoAnchor(tr[0], src);
    AnchorsSplit(tr, src);
    AheadStep(pt, tr, at, hi);
    SkippedNothing(pt, tr[0], at);
    FundedMeans(c, pt, tr, at, hi, ai, left);
    FundedMeans(c, pt, tr[1..], NextAt(tr[0], at), hi, ai, left);
    assert [] + AnchorsOf(tr[1..], src) == AnchorsOf(tr[1..], src);
    NextStands(c, pt, src, tr, at, hi, last, ai, left, ai, left);
  }

  lemma SkippedNothing(pt: PatternTree, e: Event, at: nat)
    requires e.Skipped?
    ensures Strays(Between(pt, e, at), []) == []
  {
  }

  // ----- behind the last anchor -----

  /** Behind the last event with extent stand references to empty sequences and dropped bytes. */
  lemma {:induction false} NothingLeft(caps: map<bytes, Capture>, pt: PatternTree, src: bytes, tr: seq<Event>, at: nat, hi: nat)
    requires AnchorsOf(tr, src) == [] && AllRepeated(pt, src, caps, tr)
    ensures EmptyRefsAndDrops(caps, Pieces(pt, tr, at, hi))
    ensures !HasRef(Pieces(pt, tr, at, hi)) ==> |Pieces(pt, tr, at, hi)| == Ahead(pt, tr, at, hi)
    decreases |tr|
  {
    hide *;
    if tr == [] {
      NoEvents(caps, pt, at, hi);
    } else {
      AnchorsSplit(tr, src);
      FirstRepeated(pt, src, caps, tr);
      NothingLeft(caps, pt, src, tr[1..], NextAt(tr[0], at), hi);
      PiecesStep(pt, tr, at, hi);
      AheadStep(pt, tr, at, hi);
      match tr[0]
      case Aligned(a) =>
        AlignedAnchor(pt, src, caps, tr[0]);
        assert false;
      case Bound(_, _, _) =>
        BoundAnchor(pt, src, caps, tr[0]);
        NameItem(pt, tr[0]);
        EmptyBehind(caps, Between(pt, tr[0], at), ItemOf(pt, tr[0]), Pieces(pt, tr[1..], NextAt(tr[0], at), hi));
      case Skipped(_) =>
        SkippedNothing(pt, tr[0], at);
    }
  }

  lemma NoEvents(caps: map<bytes, Capture>, pt: PatternTree, at: nat, hi: nat)
    ensures EmptyRefsAndDrops(caps, Pieces(pt, [], at, hi)) && |Pieces(pt, [], at, hi)| == Ahead(pt, [], at, hi)
  {
    hide Slice, Strays;
    StraysDrop(Slice(pt.source, at, hi), []);
  }

  lemma EmptyBehind(caps: map<bytes, Capture>, between: bytes, item: Item, more: seq<Spaced>)
    requires item.Ref? && IsEmptySeq(caps, item.name) && EmptyRefsAndDrops(caps, more)
    ensures EmptyRefsAndDrops(caps, Behind(between, item, more)) && HasRef(Behind(between, item, more))
  {
    hide Strays, Blank, IsEmptySeq;
    StraysDrop(between, []);
    var x := Spaced(Blank(between, []), item);
    assert x in [x] + more && x in Behind(between, item, more);
  }

  lemma {:induction false} NothingUnpaid(c: Context, xs: seq<Spaced>, last: bytes, left: seq<nat>)
    requires |left| == |c.spans| && Payable(xs)
    requires var n := |c.anchors|; var low, high := WindowLow(c.anchors, n - 1), WindowHigh(c.anchors, n);
             Avail(c.spans, left, low, high, 0) >= |xs| && Untouched(c.spans, left, high)
    ensures Unpaid(c, xs, last, left) == last
    decreases |xs|
  {
    hide Pay, WindowLow, WindowHigh, Avail, Untouched, IsIdentCont, Written;
    if xs != [] {
      var n := |c.anchors|;
      assert xs[0] in xs;
      PayableIff(c.spans, left, xs[0].item.b, WindowLow(c.anchors, n - 1), WindowHigh(c.anchors, n));
      forall x | x in xs[1..] ensures x in xs {}
      NothingUnpaid(c, xs[1..], last, Pay(c.spans, left, xs[0].item.b, WindowLow(c.anchors, n - 1), WindowHigh(c.anchors, n)).value);
    }
  }

  lemma NothingAnchored(c: Context, pt: PatternTree, src: bytes, tr: seq<Event>, at: nat, hi: nat, last: bytes,
          ai: nat, left: seq<nat>)
    requires Standing(c, pt, src, tr, at, hi, last, ai, left) && AnchorsOf(tr, src) == []
    ensures Trailing(pt, tr, src, at, hi) == Pieces(pt, tr, at, hi) && |left| == |c.spans| && ai <= |c.anchors|
    ensures Repeats(c, Pieces(pt, tr, at, hi), last, ai, left, Pieces(pt, tr, at, hi), left)
    ensures EmptyRefsAndDrops(c.caps, Pieces(pt, tr, at, hi))
    ensures !HasRef(Pieces(pt, tr, at, hi)) ==> Unpaid(c, Pieces(pt, tr, at, hi), last, left) == last
  {
    hide *;
    StandsOn(c, pt, src, tr, at, hi, last, ai, left);
    assert |c.anchors[ai..]| == 0;
    var xs := Pieces(pt, tr, at, hi);
    TrailingEnds(pt, tr, src, at, hi);
    RepeatsDone(c, xs, last, left);
    NothingLeft(c.caps, pt, src, tr, at, hi);
    if !HasRef(xs) {
      DropsWithoutRef(c.caps, xs);
      assert xs + [] == xs;
      PastDrops(c.caps, xs, [], last);
      FundedMeans(c, pt, tr, at, hi, ai, left);
      NothingUnpaid(c, xs, last, left);
    }
  }

  lemma TrailingEnds(pt: PatternTree, tr: seq<Event>, src: bytes, at: nat, hi: nat)
    requires AnchorsOf(tr, src) == []
    ensures Trailing(pt, tr, src, at, hi) == Pieces(pt, tr, at, hi)
  {
    hide Pieces, AnchorsOf;
  }

  /** The items repeat the anchors from the `ai`-th on; behind them stand references to empty sequences and
      dropped bytes the budget still covers. */
  lemma {:induction false} PiecesRepeat(c: Context, pt: PatternTree, src: bytes, tr: seq<Event>, at: nat, hi: nat, last: bytes,
          ai: nat, left: seq<nat>) returns (left': seq<nat>)
    requires Standing(c, pt, src, tr, at, hi, last, ai, left)
    ensures |left'| == |c.spans| == |left| && ai <= |c.anchors|
    ensures Repeats(c, Pieces(pt, tr, at, hi), last, ai, left, Trailing(pt, tr, src, at, hi), left')
    ensures EmptyRefsAndDrops(c.caps, Trailing(pt, tr, src, at, hi))
    ensures !HasRef(Trailing(pt, tr, src, at, hi)) ==> Unpaid(c, Trailing(pt, tr, src, at, hi), last, left') == last
    decreases |tr|
  {
    hide *;
    if AnchorsOf(tr, src) == [] {
      left' := left;
      NothingAnchored(c, pt, src, tr, at, hi, last, ai, left);
    } else {
      SomethingAnchored(tr, src);
      TrailingStep(pt, tr, src, at, hi);
      var rest := Trailing(pt, tr, src, at, hi);
      match tr[0]
      case Aligned(a) =>
        var paid := TokenStands(c, pt, src, tr, at, hi, last, ai, left);
        left' := PiecesRepeat(c, pt, src, tr[1..], NextAt(tr[0], at), hi, last, ai + 1, paid);
        TokenRepeats(c, pt, src, tr, at, hi, last, ai, left, paid, rest, left');
      case Bound(name, cap, pat) =>
        var paid, ai' := NameStands(c, pt, src, tr, at, hi, last, ai, left);
        left' := PiecesRepeat(c, pt, src, tr[1..], NextAt(tr[0], at), hi, last, ai', paid);
        NameRepeats(c, pt, src, tr, at, hi, last, ai, left, paid, ai', rest, left');
      case Skipped(_) =>
        SkippedStands(c, pt, src, tr, at, hi, last, ai, left);
        left' := PiecesRepeat(c, pt, src, tr[1..], NextAt(tr[0], at), hi, last, ai, left);
    }
    StandsOn(c, pt, src, tr, at, hi, last, ai, left);
  }

  lemma SomethingAnchored(tr: seq<Event>, src: bytes)
    requires AnchorsOf(tr, src) != []
    ensures tr != []
  {
  }

  // ----- the theorem -----

  /** Between its tokens and placeholders the pattern's text holds whitespace and dropped bytes only. */
  predicate GapsDropped(pt: PatternTree, spans: seq<Range>, tr: seq<Event>, at: nat, hi: nat) {
    if tr == [] then OnlyDropped(pt, spans, at, hi)
    else
      && (tr[0].Aligned? ==> OnlyDropped(pt, spans, at, tr[0].a.patStart))
      && (tr[0].Bound? ==> OnlyDropped(pt, spans, at, tr[0].pat.start))
      && GapsDropped(pt, spans, tr[1..], NextAt(tr[0], at), hi)
  }

  predicate TokensClear(spans: seq<Range>, tr: seq<Event>) {
    forall e | e in tr && e.Aligned? :: StandClear(spans, Range(e.a.patStart, e.a.patEnd))
  }

  lemma {:induction false} InOrderAccounts(pt: PatternTree, spans: seq<Range>, tr: seq<Event>, at: nat, top: nat, hi: nat)
    requires InOrder(PatRanges(tr), at, top) && top <= hi <= |pt.source|
    requires GapsDropped(pt, spans, tr, at, hi) && TokensClear(spans, tr)
    ensures Accounts(pt, spans, tr, at, hi)
    decreases |tr|
  {
    hide OnlyDropped, StandClear;
    if tr != [] {
      var ranges, r := PatRanges(tr), PatRange(tr[0]);
      assert ranges == r + PatRanges(tr[1..]);
      assert ranges[|r|..] == PatRanges(tr[1..]);
      assert tr[0] in tr;
      forall e | e in tr[1..] ensures e in tr {}
      if r != [] {
        assert ranges[0] == r[0] && ranges[1..] == PatRanges(tr[1..]);
      }
      InOrderAccounts(pt, spans, tr[1..], NextAt(tr[0], at), top, hi);
    }
  }

  /** What the compile set aside lies behind the pattern root, what the match dropped beside its tokens. */
  lemma DroppedStandClear(pt: PatternTree, n: Node, src: bytes, absorbed: seq<Range>, d: Deriv)
    requires NodeHolds(pt, pt.root, n, src, d) && WellFormed(pt.root)
    requires forall s | s in absorbed :: pt.root.end <= s.start
    ensures TokensClear(ResultOf(pt, n, src, absorbed, d).dropped, NodeTrace(pt, pt.root, n, src, d))
  {
    hide NodeHolds, NodeTrace, NodeDropped, WellFormed, Rebind, Derivations.AlignsOf, CommentsOf, CommentsWithin, NodeToCapture;
    var tr := NodeTrace(pt, pt.root, n, src, d);
    NodeKept(pt, pt.root, n, src, d);
    forall e, s | e in tr && e.Aligned? && s in absorbed + NodeDropped(pt, pt.root, n, src, d)
      ensures e.a.patEnd <= s.start || s.end <= e.a.patStart
    {
      if s in absorbed {
        assert e.a.patEnd <= pt.root.end;
      }
    }
  }

  /** A token of the pattern's text is not empty. */
  lemma {:induction false} TokenHasText(pt: PatternTree, tr: seq<Event>, at: nat, hi: nat, last: bytes, e: Event)
    requires WellSpaced(Pieces(pt, tr, at, hi), last) && e in tr && e.Aligned?
    ensures Slice(pt.source, e.a.patStart, e.a.patEnd) != []
    decreases |tr|
  {
    hide *;
    PiecesStep(pt, tr, at, hi);
    if !tr[0].Skipped? {
      ItemIsSpaced(Between(pt, tr[0], at), ItemOf(pt, tr[0]), Pieces(pt, tr[1..], NextAt(tr[0], at), hi), last);
      TokenItem(pt, tr[0]);
    }
    if e != tr[0] {
      TokenHasText(pt, tr[1..], NextAt(tr[0], at), hi, last, e);
    }
  }

  lemma ItemIsSpaced(between: bytes, item: Item, more: seq<Spaced>, last: bytes)
    requires WellSpaced(Behind(between, item, more), last)
    ensures WellSpaced(more, last) && ItemBytes(item) != []
  {
    hide Strays, Blank, Written, ItemFits, IsSpace, IsIdentCont, NextLiteral, Distinct, ItemBytes;
    var x := Spaced(Blank(between, []), item);
    StraysDrop(between, []);
    PastDrops(map[], Strays(between, []), [x] + more, last);
    UnfoldSpaced([x] + more, last);
    assert ([x] + more)[1..] == more;
    FirstByte(item);
  }

  lemma TokenItem(pt: PatternTree, e: Event)
    requires !e.Skipped? && ItemBytes(ItemOf(pt, e)) != []
    ensures e.Aligned? ==> Slice(pt.source, e.a.patStart, e.a.patEnd) != []
  {
    hide Slice;
  }

  lemma TokenIsExact(pt: PatternTree, p: Node, t: Node, src: bytes, a: TokenAlign)
    requires TextAgrees(pt, p, t, src, a) && !pt.cfg.trimsAnonTokens && Slice(pt.source, a.patStart, a.patEnd) != []
    ensures Slice(src, a.srcStart, a.srcEnd) == Slice(pt.source, a.patStart, a.patEnd) && a.srcStart < a.srcEnd
  {
    hide Under, Trim;
  }

  lemma MatchIsRepeated(pt: PatternTree, n: Node, src: bytes, absorbed: seq<Range>, d: Deriv, at: nat, hi: nat, last: bytes)
    requires Clear(pt, pt.root) && NodeHolds(pt, pt.root, n, src, d)
    requires WellFormed(pt.root) && WellFormed(n) && n.end <= |src| && !pt.cfg.trimsAnonTokens
    requires IMPLICIT !in AllNames(pt, pt.root) && OUTER !in AllNames(pt, pt.root) && NoRepeats(AllNames(pt, pt.root))
    requires WellSpaced(Pieces(pt, NodeTrace(pt, pt.root, n, src, d), at, hi), last)
    ensures AllRepeated(pt, src, ResultOf(pt, n, src, absorbed, d).captures, NodeTrace(pt, pt.root, n, src, d))
    ensures forall e | e in NodeTrace(pt, pt.root, n, src, d) && e.Bound? :: e.name in AllNames(pt, pt.root)
  {
    hide *;
    var m, tr := ResultOf(pt, n, src, absorbed, d), NodeTrace(pt, pt.root, n, src, d);
    MatchAgrees(pt, n, src, d);
    NodeHoldsText(pt, pt.root, n, src, d);
    ResultBindings(pt, n, src, absorbed, d);
    NodeNames(pt, pt.root, n, src, d);
    NamesNonEmpty(pt, pt.root);
    forall e | e in tr ensures Repeated(pt, src, m.captures, e) && (e.Bound? ==> e.name in AllNames(pt, pt.root)) {
      if e.Aligned? {
        TokenHasText(pt, tr, at, hi, last, e);
        TokenIsExact(pt, pt.root, n, src, e.a);
      } else if e.Bound? {
        NameOfEvent(tr, e);
        SoleBindingIsLast(tr, e);
      }
      EventRepeated(pt, tr, src, m.captures, e);
    }
    RepeatedAll(pt, src, m.captures, tr);
  }

  lemma MatchAgrees(pt: PatternTree, n: Node, src: bytes, d: Deriv)
    requires NodeHolds(pt, pt.root, n, src, d) && WellFormed(n) && n.end <= |src|
    ensures forall e | e in NodeTrace(pt, pt.root, n, src, d) && e.Aligned? :: TextAgrees(pt, pt.root, n, src, e.a)
  {
    hide NodeHolds, NodeTrace, WellFormed, TextAgrees;
    assert Under(pt.root, pt.root) && Under(n, n);
    NodeAgrees(pt, pt.root, n, pt.root, n, src, d);
  }

  lemma EventRepeated(pt: PatternTree, tr: seq<Event>, src: bytes, caps: map<bytes, Capture>, e: Event)
    requires e in tr && AllHoldTheirText(tr, src)
    requires e.Aligned? ==>
               e.a.srcStart < e.a.srcEnd && Slice(src, e.a.srcStart, e.a.srcEnd) == Slice(pt.source, e.a.patStart, e.a.patEnd)
    requires e.Bound? ==> e.name != [] && e.name in caps && caps[e.name] == e.cap
    ensures Repeated(pt, src, caps, e)
  {
    assert HoldsItsText(e, src);
  }

  lemma RepeatedAll(pt: PatternTree, src: bytes, caps: map<bytes, Capture>, tr: seq<Event>)
    requires forall e | e in tr :: Repeated(pt, src, caps, e)
    ensures AllRepeated(pt, src, caps, tr)
  {
    hide Repeated;
  }

  /** A result with the match's records whose own captures, and the matched node, are as the match bound them. */
  ghost predicate Carries(pt: PatternTree, m: RawMatch, r: RawMatch) {
    r == m.(captures := r.captures) && forall x | x in AllNames(pt, pt.root) || x == OUTER :: SameAt(m.captures, r.captures, x)
  }

  lemma CarriedRepeats(pt: PatternTree, src: bytes, m: RawMatch, r: RawMatch, tr: seq<Event>)
    requires Carries(pt, m, r) && AllRepeated(pt, src, m.captures, tr)
    requires forall e | e in tr && e.Bound? :: e.name in AllNames(pt, pt.root)
    ensures AllRepeated(pt, src, r.captures, tr)
  {
    hide AllNames, Slice;
    forall e | e in tr ensures Repeated(pt, src, r.captures, e) {
      assert Repeated(pt, src, m.captures, e);
      if e.Bound? {
        assert SameAt(m.captures, r.captures, e.name);
      }
    }
  }

  /** What the identity of a pattern's own text needs to know of the pattern: it ends at `hi`, nothing in it reads
      two ways, and what is neither token nor placeholder is whitespace or was dropped. */
  ghost predicate WritesItself(pt: PatternTree, tr: seq<Event>, absorbed: seq<Range>, r: RawMatch, hi: nat) {
    var at := pt.root.start;
    && pt.root.end <= hi <= |pt.source| && hi <= NO_LIMIT && (forall s | s in absorbed :: pt.root.end <= s.start)
    && GapsDropped(pt, r.dropped, tr, at, hi)
    && WellSpaced(Pieces(pt, tr, at, hi), Closing(pt, tr, at, hi))
    && Distinct(r.captures, Pieces(pt, tr, at, hi), Closing(pt, tr, at, hi))
  }

  /** The scan stands at the start of the pattern's text. */
  lemma StandsAtStart(c: Context, pt: PatternTree, n: Node, src: bytes, absorbed: seq<Range>, d: Deriv, r: RawMatch, hi: nat)
    requires NodeHolds(pt, pt.root, n, src, d) && WellFormed(pt.root) && WellFormed(n) && n.end <= |src|
    requires Carries(pt, ResultOf(pt, n, src, absorbed, d), r) && c.spans == r.dropped && c.caps == r.captures
    requires var tr := NodeTrace(pt, pt.root, n, src, d);
             && WritesItself(pt, tr, absorbed, r, hi) && AllRepeated(pt, src, r.captures, tr)
             && c.anchors == AnchorsOf(tr, src)
    ensures var tr := NodeTrace(pt, pt.root, n, src, d);
            Standing(c, pt, src, tr, pt.root.start, hi, Closing(pt, tr, pt.root.start, hi), 0, Widths(c.spans))
  {
    hide NodeHolds, NodeTrace, WellFormed, ResultOf, AllRepeated, Accounts, WellSpaced, Distinct, Pieces, Closing, Avail, Untouched,
         WindowHigh, Ahead, GapsDropped, TokensClear, AnchorsOf, InOrder, PatRanges, AllNames, NextToken, Spanned, NodeDropped;
    var tr, at := NodeTrace(pt, pt.root, n, src, d), pt.root.start;
    DroppedStandClear(pt, n, src, absorbed, d);
    TraceInOrder(pt, n, src, d);
    InOrderAccounts(pt, c.spans, tr, at, pt.root.end, hi);
    assert c.anchors[0..] == c.anchors;
    AheadIsSpanned(pt, c.spans, tr, at, hi);
    WindowEnds(pt, src, c.caps, tr, c.anchors, 0, hi);
    FirstWindowFunded(c.spans, at, NextToken(tr, hi), WindowHigh(c.anchors, 0));
    assert WindowLow(c.anchors, -1) == 0;
  }

  /** The text a pattern was written as, used as the template, rewrites the match to itself, byte for byte, exactly
      when it ends in no reference to an empty sequence, or in such references alone with no whitespace and no
      dropped byte around them. */
  lemma ResultRewritesToItself(pt: PatternTree, n: Node, src: bytes, absorbed: seq<Range>, d: Deriv, r: RawMatch, hi: nat,
          kept: seq<Anchor>)
    requires Clear(pt, pt.root) && NodeHolds(pt, pt.root, n, src, d)
    requires WellFormed(pt.root) && WellFormed(n) && n.start < n.end <= |src| && !pt.cfg.trimsAnonTokens
    requires IMPLICIT !in AllNames(pt, pt.root) && OUTER !in AllNames(pt, pt.root) && NoRepeats(AllNames(pt, pt.root))
    requires Carries(pt, ResultOf(pt, n, src, absorbed, d), r)
    requires WritesItself(pt, NodeTrace(pt, pt.root, n, src, d), absorbed, r, hi)
    requires kept == AnchorsOf(NodeTrace(pt, pt.root, n, src, d), src) && kept != []
    ensures var tr, at := NodeTrace(pt, pt.root, n, src, d), pt.root.start;
            var last, rest := Closing(pt, tr, at, hi), Trailing(pt, tr, src, at, hi);
            && Anchorable(r, src) && Tiling(kept, r.captures[OUTER].start, r.captures[OUTER].end)
            && (Spliced(r, Restored(pt, tr, at, hi), src, kept) == Ok(src[n.start..n.end])
                <==> (HasRef(rest) ==> AllEmptyRefs(r.captures, rest) && Gaps(rest, last) == []))
  {
    hide *;
    var m, tr, at := ResultOf(pt, n, src, absorbed, d), NodeTrace(pt, pt.root, n, src, d), pt.root.start;
    var last, xs, rest := Closing(pt, tr, at, hi), Pieces(pt, tr, at, hi), Trailing(pt, tr, src, at, hi);
    SpacedItself(pt, tr, absorbed, r, hi);
    PiecesWritten(pt, tr, at, hi);
    MatchIsRepeated(pt, n, src, absorbed, d, at, hi, last);
    CarriedRepeats(pt, src, m, r, tr);
    CarriedOuter(pt, n, src, absorbed, d, r);
    TraceInOrder(pt, n, src, d);
    TraceTiles(tr, src, n.start, n.end);
    var c := ContextOf(r, Written(xs, last), kept);
    ContextIs(r, Written(xs, last), kept);
    StandsAtStart(c, pt, n, src, absorbed, d, r, hi);
    var left := PiecesRepeat(c, pt, src, tr, at, hi, last, 0, Widths(c.spans));
    IdentityIff(r, src, kept, xs, last, rest, left);
    if !HasRef(rest) {
      BlankClosing(xs, last);
      TrimOfSpace(last);
    }
  }

  lemma SpacedItself(pt: PatternTree, tr: seq<Event>, absorbed: seq<Range>, r: RawMatch, hi: nat)
    requires WritesItself(pt, tr, absorbed, r, hi)
    ensures WellSpaced(Pieces(pt, tr, pt.root.start, hi), Closing(pt, tr, pt.root.start, hi))
  {
    hide WellSpaced, Pieces, Closing, Distinct, GapsDropped;
  }

  lemma ContextIs(r: RawMatch, template: bytes, anchors: seq<Anchor>)
    ensures var c := ContextOf(r, template, anchors); c.spans == r.dropped && c.caps == r.captures && c.anchors == anchors
  {
  }

  lemma CarriedOuter(pt: PatternTree, n: Node, src: bytes, absorbed: seq<Range>, d: Deriv, r: RawMatch)
    requires Clear(pt, pt.root) && NodeHolds(pt, pt.root, n, src, d) && n.start < n.end <= |src|
    requires IMPLICIT !in AllNames(pt, pt.root) && OUTER !in AllNames(pt, pt.root)
    requires Carries(pt, ResultOf(pt, n, src, absorbed, d), r)
    ensures Anchorable(r, src) && r.captures[OUTER].start == n.start && r.captures[OUTER].end == n.end
  {
    hide NodeHolds, NodeTrace, Clear, AllNames, ResultOf, LastBinding;
    ResultBindings(pt, n, src, absorbed, d);
    OuterSpan(n, src);
    assert SameAt(ResultOf(pt, n, src, absorbed, d).captures, r.captures, OUTER);
  }

  lemma {:induction false} BlankClosing(xs: seq<Spaced>, last: bytes)
    requires WellSpaced(xs, last)
    ensures AllSpace(last)
    decreases |xs|
  {
    if xs != [] {
      UnfoldSpaced(xs, last);
      BlankClosing(xs[1..], last);
    }
  }

  /** A pattern used as its own template rewrites every match to itself, under the condition above. */
  lemma PatternRewritesToItself(pt: PatternTree, n: Node, src: bytes, absorbed: seq<Range>, d: Deriv, hi: nat, kept: seq<Anchor>)
    requires Clear(pt, pt.root) && NodeHolds(pt, pt.root, n, src, d)
    requires WellFormed(pt.root) && WellFormed(n) && n.start < n.end <= |src| && !pt.cfg.trimsAnonTokens
    requires IMPLICIT !in AllNames(pt, pt.root) && OUTER !in AllNames(pt, pt.root) && NoRepeats(AllNames(pt, pt.root))
    requires WritesItself(pt, NodeTrace(pt, pt.root, n, src, d), absorbed, ResultOf(pt, n, src, absorbed, d), hi)
    requires AnchorList(ResultOf(pt, n, src, absorbed, d), src, NodeToCapture(n, src), kept) && kept != []
    ensures var m, tr, at := ResultOf(pt, n, src, absorbed, d), NodeTrace(pt, pt.root, n, src, d), pt.root.start;
            var last, rest := Closing(pt, tr, at, hi), Trailing(pt, tr, src, at, hi);
            && Anchorable(m, src) && Tiling(kept, m.captures[OUTER].start, m.captures[OUTER].end)
            && (Spliced(m, Restored(pt, tr, at, hi), src, kept) == Ok(src[n.start..n.end])
                <==> (HasRef(rest) ==> AllEmptyRefs(m.captures, rest) && Gaps(rest, last) == []))
  {
    hide *;
    AnchorsAreEvents(pt, n, src, absorbed, d, kept);
    CarriesItself(pt, ResultOf(pt, n, src, absorbed, d));
    ResultRewritesToItself(pt, n, src, absorbed, d, ResultOf(pt, n, src, absorbed, d), hi, kept);
  }

  lemma CarriesItself(pt: PatternTree, m: RawMatch)
    ensures Carries(pt, m, m)
  {
    hide AllNames;
  }

  /** The same of a match filtered by a where-tree, whose handles are named like no placeholder and not `match`, when
      an own anchor that sorts earlier covers the first byte of everything they add. */
  lemma FilteredRewritesToItself(pt: PatternTree, n: Node, src: bytes, absorbed: seq<Range>, d: Deriv, hi: nat, kept: seq<Anchor>,
          log: seq<Binding>, w: WhereTree.WhereNode, pattern: bytes)
    requires Clear(pt, pt.root) && NodeHolds(pt, pt.root, n, src, d) && CompiledFrom(pt, pattern)
    requires WellFormed(pt.root) && WellFormed(n) && n.start < n.end <= |src| && !pt.cfg.trimsAnonTokens
    requires IMPLICIT !in AllNames(pt, pt.root) && OUTER !in AllNames(pt, pt.root) && NoRepeats(AllNames(pt, pt.root))
    requires Declared(log, WhereTree.Exports(w))
    requires forall x | x in AllNames(pt, pt.root) || x == OUTER :: x !in WhereTree.Exports(w)
    requires WritesItself(pt, NodeTrace(pt, pt.root, n, src, d), absorbed, FilteredOf(pt, n, src, absorbed, d, log), hi)
    requires AnchorList(FilteredOf(pt, n, src, absorbed, d, log), src, NodeToCapture(n, src), kept) && kept != []
    requires var m, f, outer := ResultOf(pt, n, src, absorbed, d), FilteredOf(pt, n, src, absorbed, d, log), NodeToCapture(n, src);
             AllCovered(CandidatesOf(m, src, outer), RivalsOf(m, f, src, outer))
    ensures var f, tr, at := FilteredOf(pt, n, src, absorbed, d, log), NodeTrace(pt, pt.root, n, src, d), pt.root.start;
            var last, rest := Closing(pt, tr, at, hi), Trailing(pt, tr, src, at, hi);
            && Anchorable(f, src) && Tiling(kept, f.captures[OUTER].start, f.captures[OUTER].end)
            && (Spliced(f, Restored(pt, tr, at, hi), src, kept) == Ok(src[n.start..n.end])
                <==> (HasRef(rest) ==> AllEmptyRefs(f.captures, rest) && Gaps(rest, last) == []))
  {
    hide *;
    var m, f := ResultOf(pt, n, src, absorbed, d), FilteredOf(pt, n, src, absorbed, d, log);
    var list := AnchorsOf(NodeTrace(pt, pt.root, n, src, d), src);
    AnchorsAreEvents(pt, n, src, absorbed, d, list);
    UnexportedUnwritten(log, w);
    UnwrittenIntact(pt, n, src, absorbed, d, log, w, pattern, NodeToCapture(n, src));
    HandlesChangeNothingIff(pt, n, src, absorbed, d, log, NodeToCapture(n, src), list, kept);
    FilteredBindings(pt, n, src, absorbed, d, log, w, pattern);
    CarriesFrom(pt, m, f);
    ResultRewritesToItself(pt, n, src, absorbed, d, f, hi, kept);
  }

  lemma UnexportedUnwritten(log: seq<Binding>, w: WhereTree.WhereNode)
    requires Declared(log, WhereTree.Exports(w))
    ensures forall x | x !in WhereTree.Exports(w) :: x !in KeysWritten(log)
  {
    hide KeysWritten, WhereTree.Exports;
    WrittenIsDeclared(log, WhereTree.Exports(w));
  }

  lemma CarriesFrom(pt: PatternTree, m: RawMatch, r: RawMatch)
    requires r == m.(captures := r.captures)
    requires forall x | x in AllNames(pt, pt.root) || x == OUTER :: SameAt(m.captures, r.captures, x)
    ensures Carries(pt, m, r)
  {
    hide AllNames;
  }
}
