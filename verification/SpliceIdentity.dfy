/**
 Identity by construction: a template that writes the pattern's tokens in order, spaced in any way that
 keeps identifiers apart, and that may repeat dropped tokens within their budget, replaces a match by
 itself. The exception is a template that names empty sequences behind the last anchor.
 */
module SpliceIdentity {
  import opened Bytes
  import opened Outcomes
  import opened SyntaxTree
  import opened MatchRecords
  import opened RawMatches
  import opened PlaceholderDsl
  import opened SpliceAnchors
  import opened SpliceScan
  import opened SpliceComments
  import opened Splice

  /** What a template that repeats the pattern is made of: a literal token, a reference written with one
      or three dollars, or one byte of a token the match dropped. */
  datatype Item = Literal(text: bytes) | Ref(name: bytes, dollars: nat) | Dropped(b: byte)

  /** An item behind the whitespace in front of it. */
  datatype Spaced = Spaced(gap: bytes, item: Item)

  function ItemBytes(x: Item): bytes {
    match x
    case Literal(text) => text
    case Ref(name, d) => Dollars(d) + name
    case Dropped(b) => [b]
  }

  function Written(xs: seq<Spaced>, last: bytes): bytes {
    if xs == [] then last else xs[0].gap + ItemBytes(xs[0].item) + Written(xs[1..], last)
  }

  predicate IsIdentifier(name: bytes) {
    |name| > 0 && IsIdentStart(name[0]) && name[0] != UNDERSCORE && forall k | 0 <= k < |name| :: IsIdentCont(name[k])
  }

  /** Literals begin with neither a dollar nor whitespace. */
  predicate ItemFits(x: Item) {
    match x
    case Literal(text) => text != [] && text[0] != DOLLAR && !IsSpace(text[0])
    case Ref(name, d) => (d == 1 || d == 3) && IsIdentifier(name)
    case Dropped(b) => !IsIdentCont(b) && !IsSpace(b) && b != DOLLAR
  }

  /** Gaps are whitespace, and two identifier characters of neighbouring items never touch. */
  predicate WellSpaced(xs: seq<Spaced>, last: bytes) {
    if xs == [] then AllSpace(last)
    else
      && AllSpace(xs[0].gap) && ItemFits(xs[0].item) && WellSpaced(xs[1..], last)
      && (|xs| > 1 && xs[1].gap == [] && ItemBytes(xs[1].item) != [] && ItemBytes(xs[0].item) != [] ==>
            var a, b := ItemBytes(xs[0].item), ItemBytes(xs[1].item);
            !(IsIdentCont(a[|a| - 1]) && IsIdentCont(b[0])))
  }

  /** From anchor `ai` on the items write the anchors in order, up to the items `rest` behind the last
      anchor; dropped bytes are no prefix of what the next anchor reads, and the budget goes from `left`
      down to `left'`. */
  predicate Repeats(c: Context, xs: seq<Spaced>, last: bytes, ai: nat, left: seq<nat>, rest: seq<Spaced>,
          left': seq<nat>)
    requires ai <= |c.anchors| && |left| == |c.spans|
    decreases |xs|
  {
    if ai == |c.anchors| then xs == rest && left == left'
    else
      && xs != []
      && match xs[0].item
         case Literal(text) =>
           c.anchors[ai].name == [] && c.anchors[ai].text == text
           && Repeats(c, xs[1..], last, ai + 1, left, rest, left')
         case Ref(name, d) =>
           if IsEmptySeq(c.caps, name) then Repeats(c, xs[1..], last, ai, left, rest, left')
           else c.anchors[ai].name == name && Repeats(c, xs[1..], last, ai + 1, left, rest, left')
         case Dropped(b) =>
           && !(c.anchors[ai].name == [] && c.anchors[ai].text <= [b] + Written(xs[1..], last))
           && var paid := Pay(c.spans, left, b, WindowLow(c.anchors, ai - 1), WindowHigh(c.anchors, ai));
              paid.Some? && Repeats(c, xs[1..], last, ai, paid.value, rest, left')
  }

  // ----- reading one item -----

  /** From `i` on `s` reads `a`, then `b`, then `rest`. */
  predicate Parted(s: bytes, i: nat, a: bytes, b: bytes, rest: bytes) {
    && i + |a| + |b| + |rest| == |s|
    && s[i..i + |a|] == a && s[i + |a|..i + |a| + |b|] == b && s[i + |a| + |b|..] == rest
    && s[i + |a|..] == b + rest
    && (b != [] ==> s[i + |a|] == b[0] && s[i + |a| + |b| - 1] == b[|b| - 1])
    && (rest != [] ==> s[i + |a| + |b|] == rest[0])
  }

  /** Reading a concatenation apart. */
  lemma Cut(s: bytes, i: nat, a: bytes, b: bytes, rest: bytes)
    requires i <= |s| && s[i..] == a + b + rest
    ensures Parted(s, i, a, b, rest)
  {
    var t := s[i..];
    assert |t| == |a| + |b| + |rest|;
    assert t[..|a|] == a && t[|a|..|a| + |b|] == b && t[|a| + |b|..] == rest && t[|a|..] == b + rest;
    assert forall k | 0 <= k < |t| :: t[k] == s[i + k];
  }

  lemma {:induction false} SkipSpaceIs(s: bytes, i: nat, j: nat)
    requires i <= j <= |s| && AllSpace(s[i..j]) && (j < |s| ==> !IsSpace(s[j]))
    ensures SkipSpace(s, i) == j
    decreases j - i
  {
    if i < j {
      assert s[i] == s[i..j][0];
      assert s[i + 1..j] == s[i..j][1..];
      SkipSpaceIs(s, i + 1, j);
    }
  }

  lemma {:induction false} DollarsFromIs(s: bytes, i: nat, d: nat)
    requires i + d <= |s| && (forall k | i <= k < i + d :: s[k] == DOLLAR) && (i + d < |s| ==> s[i + d] != DOLLAR)
    ensures DollarsFrom(s, i) == d
    decreases d
  {
    if d > 0 {
      DollarsFromIs(s, i + 1, d - 1);
    }
  }

  /** A reference is read back where it is written. */
  lemma RefHeadReads(s: bytes, i: nat, name: bytes, d: nat)
    requires (d == 1 || d == 3) && IsIdentifier(name)
    requires i + d + |name| <= |s| && s[i..i + d + |name|] == Dollars(d) + name
    requires i + d + |name| < |s| ==> !IsIdentCont(s[i + d + |name|])
    ensures RefHead(s, i) == Some(Reference(name, i + d + |name|))
  {
    hide IsReference, DollarsFrom, IdentEnd, IsIdentCont;
    RefBytes(s, i, name, d);
    DollarsFromIs(s, i, d);
    IdentEndIs(s, i + d, i + d + |name|);
  }

  lemma RefBytes(s: bytes, i: nat, name: bytes, d: nat)
    requires d > 0 && IsIdentifier(name)
    requires i + d + |name| <= |s| && s[i..i + d + |name|] == Dollars(d) + name
    ensures (forall k | i <= k < i + d :: s[k] == DOLLAR) && s[i + d] == name[0] != DOLLAR && IsIdentStart(s[i + d])
    ensures (forall k | i + d <= k < i + d + |name| :: IsIdentCont(s[k])) && s[i + d..i + d + |name|] == name
  {
    var text := s[i..i + d + |name|];
    forall k | i <= k < i + d ensures s[k] == DOLLAR { assert s[k] == text[k - i]; }
    forall k | i + d <= k < i + d + |name| ensures s[k] == name[k - i - d] && IsIdentCont(s[k]) { assert s[k] == text[k - i]; }
    assert s[i + d] == name[0];
  }

  lemma NoRefWithoutDollar(s: bytes, i: nat)
    requires i < |s| && s[i] != DOLLAR
    ensures RefHead(s, i).None?
  {
    hide IsReference, IdentEnd;
  }

  /** A well-spaced text reads its first gap, its first item and the rest; the item runs into no
      identifier character behind it. */
  lemma FirstItem(s: bytes, ti: nat, xs: seq<Spaced>, last: bytes)
    requires ti <= |s| && xs != [] && s[ti..] == Written(xs, last) && WellSpaced(xs, last)
    ensures ItemBytes(xs[0].item) != []
    ensures Parted(s, ti, xs[0].gap, ItemBytes(xs[0].item), Written(xs[1..], last))
    ensures SkipSpace(s, ti) == ti + |xs[0].gap|
    ensures Stops(s, ti + |xs[0].gap| + |ItemBytes(xs[0].item)|)
  {
    var gap, text, rest := xs[0].gap, ItemBytes(xs[0].item), Written(xs[1..], last);
    hide Written, WellSpaced, SkipSpace, ItemBytes, ItemFits, AllSpace, IsSpace, IsIdentCont, Parted, Stops;
    UnfoldSpaced(xs, last);
    FirstByte(xs[0].item);
    Cut(s, ti, gap, text, rest);
    if rest != [] {
      FollowingByte(xs, last);
    }
    PartedStops(s, ti, gap, text, rest);
  }

  lemma PartedStops(s: bytes, ti: nat, gap: bytes, text: bytes, rest: bytes)
    requires Parted(s, ti, gap, text, rest) && AllSpace(gap) && text != [] && !IsSpace(text[0])
    requires rest != [] && IsIdentCont(text[|text| - 1]) ==> !IsIdentCont(rest[0])
    ensures SkipSpace(s, ti) == ti + |gap| && Stops(s, ti + |gap| + |text|)
  {
    hide SkipSpace, IsSpace, IsIdentCont;
    SkipSpaceIs(s, ti, ti + |gap|);
  }

  /** No identifier runs across position `k`. */
  predicate Stops(s: bytes, k: nat) {
    0 < k < |s| && IsIdentCont(s[k - 1]) ==> !IsIdentCont(s[k])
  }

  lemma UnfoldSpaced(xs: seq<Spaced>, last: bytes)
    requires xs != [] && WellSpaced(xs, last)
    ensures Written(xs, last) == xs[0].gap + ItemBytes(xs[0].item) + Written(xs[1..], last)
    ensures AllSpace(xs[0].gap) && ItemFits(xs[0].item) && WellSpaced(xs[1..], last)
  {
  }

  lemma FirstByte(x: Item)
    requires ItemFits(x)
    ensures ItemBytes(x) != [] && !IsSpace(ItemBytes(x)[0])
    ensures x.Ref? <==> ItemBytes(x)[0] == DOLLAR
    ensures x.Ref? ==> !IsIdentCont(ItemBytes(x)[0])
  {
  }

  /** The byte behind an item never prolongs an identifier it ends with. */
  lemma FollowingByte(xs: seq<Spaced>, last: bytes)
    requires xs != [] && WellSpaced(xs, last) && Written(xs[1..], last) != []
    ensures var a := ItemBytes(xs[0].item);
            a != [] && (IsIdentCont(a[|a| - 1]) ==> !IsIdentCont(Written(xs[1..], last)[0]))
  {
    FirstByte(xs[0].item);
    var ys := xs[1..];
    if ys != [] {
      FirstByte(ys[0].item);
      if ys[0].gap != [] {
        assert Written(ys, last)[0] == ys[0].gap[0];
      } else {
        assert Written(ys, last)[0] == ItemBytes(ys[0].item)[0];
      }
    }
  }

  // ----- the head scan on a repeating template -----

  lemma DroppedIsNoLiteral(a: Anchor, s: bytes, j: nat, b: byte, more: bytes)
    requires j <= |s| && s[j..] == [b] + more && !(a.name == [] && a.text <= [b] + more)
    ensures !LiteralAt(a, s, j)
  {
  }

  lemma ItemShape(x: Item)
    requires ItemFits(x)
    ensures x.Ref? ==> (x.dollars == 1 || x.dollars == 3) && IsIdentifier(x.name)
                       && ItemBytes(x) == Dollars(x.dollars) + x.name && |ItemBytes(x)| == x.dollars + |x.name|
    ensures x.Literal? ==> ItemBytes(x) == x.text && x.text != [] && x.text[0] != DOLLAR
    ensures x.Dropped? ==> ItemBytes(x) == [x.b] && x.b != DOLLAR
  {
    hide IsIdentifier;
  }

  /** One item of a repeating template. */
  lemma RepeatsStep(c: Context, xs: seq<Spaced>, last: bytes, ai: nat, left: seq<nat>,
          rest: seq<Spaced>, left': seq<nat>)
    requires ai <= |c.anchors| && |left| == |c.spans| && Repeats(c, xs, last, ai, left, rest, left')
    ensures ai == |c.anchors| ==> xs == rest && left == left'
    ensures ai < |c.anchors| ==> xs != []
    ensures ai < |c.anchors| && xs[0].item.Literal? ==>
      c.anchors[ai].name == [] && c.anchors[ai].text == xs[0].item.text
      && Repeats(c, xs[1..], last, ai + 1, left, rest, left')
    ensures ai < |c.anchors| && xs[0].item.Ref? ==>
      if IsEmptySeq(c.caps, xs[0].item.name) then Repeats(c, xs[1..], last, ai, left, rest, left')
      else c.anchors[ai].name == xs[0].item.name && Repeats(c, xs[1..], last, ai + 1, left, rest, left')
    ensures ai < |c.anchors| && xs[0].item.Dropped? ==>
      && !(c.anchors[ai].name == [] && c.anchors[ai].text <= [xs[0].item.b] + Written(xs[1..], last))
      && var paid := Pay(c.spans, left, xs[0].item.b, WindowLow(c.anchors, ai - 1), WindowHigh(c.anchors, ai));
         paid.Some? && Repeats(c, xs[1..], last, ai, paid.value, rest, left')
  {
    hide Written, Pay, WindowLow, WindowHigh, IsEmptySeq;
  }

  lemma PartedRef(s: bytes, ti: nat, gap: bytes, x: Item, rest: bytes)
    requires x.Ref? && ItemFits(x) && Parted(s, ti, gap, ItemBytes(x), rest)
    requires Stops(s, ti + |gap| + |ItemBytes(x)|)
    ensures RefHead(s, ti + |gap|) == Some(Reference(x.name, ti + |gap| + |ItemBytes(x)|))
  {
    hide RefHead;
    ItemShape(x);
    LastOfRef(x, s, ti + |gap| + |ItemBytes(x)|);
    RefHeadReads(s, ti + |gap|, x.name, x.dollars);
  }

  lemma PartedLiteral(s: bytes, ti: nat, gap: bytes, x: Item, rest: bytes, a: Anchor)
    requires x.Literal? && ItemFits(x) && Parted(s, ti, gap, ItemBytes(x), rest)
    requires Stops(s, ti + |gap| + |ItemBytes(x)|) && a.name == [] && a.text == x.text
    ensures RefHead(s, ti + |gap|).None? && LiteralAt(a, s, ti + |gap|)
  {
    hide RefHead, LiteralAt;
    ItemShape(x);
    NoRefWithoutDollar(s, ti + |gap|);
    LiteralStands(a, s, ti + |gap|, ti + |gap| + |x.text|);
  }

  lemma PartedDropped(s: bytes, ti: nat, gap: bytes, x: Item, rest: bytes, a: Anchor)
    requires x.Dropped? && ItemFits(x) && Parted(s, ti, gap, ItemBytes(x), rest)
    requires !(a.name == [] && a.text <= [x.b] + rest)
    ensures RefHead(s, ti + |gap|).None? && !LiteralAt(a, s, ti + |gap|) && s[ti + |gap|] == x.b
  {
    hide RefHead, LiteralAt;
    ItemShape(x);
    NoRefWithoutDollar(s, ti + |gap|);
    DroppedIsNoLiteral(a, s, ti + |gap|, x.b, rest);
  }

  /** The head scan reads one item of a repeating template. */
  lemma HeadReadsOne(c: Context, ti: nat, xs: seq<Spaced>, last: bytes, ai: nat, left: seq<nat>,
          rest: seq<Spaced>, left': seq<nat>) returns (ai': nat, paid: seq<nat>)
    requires ti <= |c.template| && ai < |c.anchors| && |left| == |c.spans|
    requires c.template[ti..] == Written(xs, last) && WellSpaced(xs, last)
    requires Repeats(c, xs, last, ai, left, rest, left')
    ensures xs != [] && ai' <= |c.anchors| && |paid| == |c.spans| && WellSpaced(xs[1..], last)
    ensures var next := ti + |xs[0].gap| + |ItemBytes(xs[0].item)|;
            && ti <= next <= |c.template| && c.template[next..] == Written(xs[1..], last)
            && HeadFrom(c, ti, ai, left) == HeadFrom(c, next, ai', paid)
            && Repeats(c, xs[1..], last, ai', paid, rest, left')
  {
    hide HeadFrom, Written, WellSpaced, RefHead, Pay, WindowLow, WindowHigh, IsEmptySeq, SkipSpace, Repeats, ItemBytes,
         ItemFits, LiteralAt, IsReference, IsIdentifier, IsSpace, IsIdentCont, Parted, Stops, AllSpace;
    HeadStep(c, ti, ai, left);
    RepeatsStep(c, xs, last, ai, left, rest, left');
    var s, x, gap, after := c.template, xs[0].item, xs[0].gap, Written(xs[1..], last);
    UnfoldSpaced(xs, last);
    FirstItem(s, ti, xs, last);
    PartedBounds(s, ti, gap, ItemBytes(x), after);
    ItemShape(x);
    ai', paid := ai, left;
    match x
    case Ref(name, d) =>
      PartedRef(s, ti, gap, x, after);
      ai' := if IsEmptySeq(c.caps, name) then ai else ai + 1;
    case Literal(text) =>
      PartedLiteral(s, ti, gap, x, after, c.anchors[ai]);
      ai' := ai + 1;
    case Dropped(b) =>
      PartedDropped(s, ti, gap, x, after, c.anchors[ai]);
      paid := Pay(c.spans, left, b, WindowLow(c.anchors, ai - 1), WindowHigh(c.anchors, ai)).value;
  }

  lemma PartedByte(s: bytes, ti: nat, gap: bytes, text: bytes, rest: bytes)
    requires Parted(s, ti, gap, text, rest) && text != []
    ensures s[ti + |gap|] == text[0]
  {
  }

  lemma PartedBounds(s: bytes, ti: nat, gap: bytes, text: bytes, rest: bytes)
    requires Parted(s, ti, gap, text, rest) && text != []
    ensures ti + |gap| < ti + |gap| + |text| <= |s| && s[ti + |gap| + |text|..] == rest
  {
  }

  /** The head scan consumes every anchor of a template that repeats the pattern, spends what the
      repeated dropped bytes cost, and stops right behind the last anchor. */
  lemma {:induction false} HeadReadsAll(c: Context, ti: nat, xs: seq<Spaced>, last: bytes, ai: nat, left: seq<nat>,
          rest: seq<Spaced>, left': seq<nat>) returns (off: nat)
    requires ti <= |c.template| && ai <= |c.anchors| && |left| == |c.spans|
    requires c.template[ti..] == Written(xs, last) && WellSpaced(xs, last)
    requires Repeats(c, xs, last, ai, left, rest, left')
    ensures HeadFrom(c, ti, ai, left) == Scan(|c.anchors|, off, left')
    ensures ti <= off <= |c.template| && c.template[off..] == Written(rest, last) && WellSpaced(rest, last)
    decreases |xs|
  {
    hide HeadFrom, Written, WellSpaced, Repeats, ItemBytes;
    if ai == |c.anchors| {
      HeadStep(c, ti, ai, left);
      RepeatsStep(c, xs, last, ai, left, rest, left');
      off := ti;
    } else {
      var ai', paid := HeadReadsOne(c, ti, xs, last, ai, left, rest, left');
      off := HeadReadsAll(c, ti + |xs[0].gap| + |ItemBytes(xs[0].item)|, xs[1..], last, ai', paid, rest, left');
    }
  }

  /** A reference ends with an identifier character, so what follows is none. */
  lemma LastOfRef(x: Item, s: bytes, next: nat)
    requires x.Ref? && ItemFits(x) && |ItemBytes(x)| <= next <= |s|
    requires s[next - |ItemBytes(x)|..next] == ItemBytes(x) && Stops(s, next)
    ensures next < |s| ==> !IsIdentCont(s[next])
  {
    var t := ItemBytes(x);
    assert s[next - 1] == t[|t| - 1] == x.name[|x.name| - 1];
  }

  lemma LiteralStands(a: Anchor, s: bytes, j: nat, next: nat)
    requires j < next <= |s| && s[j..next] == a.text && a.name == [] && Stops(s, next)
    ensures LiteralAt(a, s, j) && next == j + |a.text|
  {
    assert s[j..][..next - j] == a.text;
    assert a.text[|a.text| - 1] == s[next - 1];
  }

  // ----- nothing new behind the last anchor -----

  /** The remaining items repeat dropped bytes the budget still covers. */
  predicate AllDropped(c: Context, xs: seq<Spaced>, left: seq<nat>)
    requires |left| == |c.spans|
    decreases |xs|
  {
    xs == [] ||
    (xs[0].item.Dropped? &&
     var n := |c.anchors|;
     var paid := Pay(c.spans, left, xs[0].item.b, WindowLow(c.anchors, n - 1), WindowHigh(c.anchors, n));
     paid.Some? && AllDropped(c, xs[1..], paid.value))
  }

  /** A dropped byte the budget covers is passed over. */
  lemma {:induction false} DroppedTailPays(c: Context, ti: nat, left: seq<nat>, j: nat, paid: seq<nat>)
    requires ti <= j < |c.template| && |left| == |c.spans| == |paid| && SkipSpace(c.template, ti) == j
    requires Pay(c.spans, left, c.template[j], WindowLow(c.anchors, |c.anchors| - 1), WindowHigh(c.anchors, |c.anchors|)) == Some(paid)
    ensures DroppedTail(c, |c.anchors|, ti, left) == DroppedTail(c, |c.anchors|, j + 1, paid)
  {
    hide Pay, WindowLow, WindowHigh, SkipSpace;
  }

  lemma DroppedTailEnds(c: Context, ti: nat, left: seq<nat>)
    requires ti <= |c.template| && |left| == |c.spans| && SkipSpace(c.template, ti) == |c.template|
    ensures DroppedTail(c, |c.anchors|, ti, left) == |c.template|
  {
    hide Pay, WindowLow, WindowHigh, SkipSpace;
  }

  lemma FirstDropped(c: Context, xs: seq<Spaced>, left: seq<nat>) returns (paid: seq<nat>)
    requires |left| == |c.spans| && AllDropped(c, xs, left) && xs != []
    ensures xs[0].item.Dropped? && |paid| == |c.spans| && AllDropped(c, xs[1..], paid)
    ensures Pay(c.spans, left, xs[0].item.b, WindowLow(c.anchors, |c.anchors| - 1), WindowHigh(c.anchors, |c.anchors|)) == Some(paid)
  {
    hide Pay, WindowLow, WindowHigh;
    paid := Pay(c.spans, left, xs[0].item.b, WindowLow(c.anchors, |c.anchors| - 1), WindowHigh(c.anchors, |c.anchors|)).value;
  }

  lemma {:induction false} DroppedTailReads(c: Context, ti: nat, xs: seq<Spaced>, last: bytes, left: seq<nat>)
    requires ti <= |c.template| && |left| == |c.spans|
    requires c.template[ti..] == Written(xs, last) && WellSpaced(xs, last) && AllDropped(c, xs, left)
    ensures DroppedTail(c, |c.anchors|, ti, left) == |c.template|
    decreases |xs|
  {
    hide Written, WellSpaced, Pay, WindowLow, WindowHigh, SkipSpace, ItemFits, ItemBytes, IsSpace, IsIdentCont, Stops;
    hide Parted, DroppedTail, AllDropped, Dollars, IsIdentifier, AllSpace;
    if xs == [] {
      BlankRest(c.template, ti, last);
      DroppedTailEnds(c, ti, left);
    } else {
      var paid := FirstDropped(c, xs, left);
      UnfoldSpaced(xs, last);
      ItemShape(xs[0].item);
      FirstItem(c.template, ti, xs, last);
      PartedBounds(c.template, ti, xs[0].gap, ItemBytes(xs[0].item), Written(xs[1..], last));
      PartedByte(c.template, ti, xs[0].gap, ItemBytes(xs[0].item), Written(xs[1..], last));
      DroppedTailPays(c, ti, left, ti + |xs[0].gap|, paid);
      DroppedTailReads(c, ti + |xs[0].gap| + 1, xs[1..], last, paid);
    }
  }

  lemma BlankRest(s: bytes, ti: nat, last: bytes)
    requires ti <= |s| && s[ti..] == Written([], last) && WellSpaced([], last)
    ensures SkipSpace(s, ti) == |s|
  {
    assert s[ti..|s|] == s[ti..];
    SkipSpaceIs(s, ti, |s|);
  }

  lemma TrimOfSpace(s: bytes)
    requires AllSpace(s)
    ensures Trim(s) == []
  {
    TrimLeftOfSpace(s);
  }

  lemma {:induction false} TrimLeftOfSpace(s: bytes)
    requires AllSpace(s)
    ensures TrimLeft(s) == []
    decreases |s|
  {
    if s != [] {
      TrimLeftOfSpace(s[1..]);
    }
  }

  /** Identity: the replacement is the matched span, byte for byte. */
  lemma RepeatingTemplateIsIdentity(m: RawMatch, src: bytes, anchors: seq<Anchor>,
          xs: seq<Spaced>, last: bytes,
          rest: seq<Spaced>, left: seq<nat>)
    requires Anchorable(m, src) && anchors != []
    requires Tiling(anchors, m.captures[OUTER].start, m.captures[OUTER].end)
    requires WellSpaced(xs, last) && |left| == |m.dropped|
    requires var c := ContextOf(m, Written(xs, last), anchors);
             Repeats(c, xs, last, 0, Widths(m.dropped), rest, left) && AllDropped(c, rest, left)
    ensures Spliced(m, Written(xs, last), src, anchors) == Ok(src[m.captures[OUTER].start..m.captures[OUTER].end])
  {
    hide HeadFrom, TailFrom, Written, WellSpaced, Trim, DroppedTail, Rewritten, Repeats;
    var c := ContextOf(m, Written(xs, last), anchors);
    assert c.template[0..] == c.template;
    var off := HeadReadsAll(c, 0, xs, last, 0, Widths(c.spans), rest, left);
    if c.spans == [] {
      NoDropsLeft(c, rest, last, left);
      TrimOfSpace(c.template[off..]);
    } else {
      DroppedTailReads(c, off, rest, last, left);
      TrimOfSpace(c.template[|c.template|..]);
    }
  }

  lemma NoDropsLeft(c: Context, rest: seq<Spaced>, last: bytes, left: seq<nat>)
    requires c.spans == [] && left == [] && AllDropped(c, rest, left) && WellSpaced(rest, last)
    ensures rest == [] && Written(rest, last) == last && AllSpace(last)
  {
  }

  // ----- references to empty sequences behind the last anchor -----

  predicate AllEmptyRefs(caps: map<bytes, Capture>, xs: seq<Spaced>) {
    forall x | x in xs :: x.item.Ref? && IsEmptySeq(caps, x.item.name)
  }

  /** References to empty sequences, and bytes of dropped tokens whether or not they can be paid. */
  predicate EmptyRefsAndDrops(caps: map<bytes, Capture>, xs: seq<Spaced>) {
    forall x | x in xs :: x.item.Dropped? || (x.item.Ref? && IsEmptySeq(caps, x.item.name))
  }

  predicate HasRef(xs: seq<Spaced>) {
    exists x | x in xs :: x.item.Ref?
  }

  /** The whitespace of a template part, the items left out. */
  function Gaps(xs: seq<Spaced>, last: bytes): bytes {
    if xs == [] then last else xs[0].gap + Gaps(xs[1..], last)
  }

  /** What an item renders as when its reference stands for nothing. */
  function Kept(x: Item): bytes {
    if x.Ref? then [] else ItemBytes(x)
  }

  /** A template part, its references left out. */
  function Erased(xs: seq<Spaced>, last: bytes): bytes {
    if xs == [] then last else xs[0].gap + Kept(xs[0].item) + Erased(xs[1..], last)
  }

  /** The items from the first on, without the first gap, and the whitespace among them. */
  function Core(xs: seq<Spaced>): bytes {
    if xs == [] then [] else ItemBytes(xs[0].item) + (if |xs| > 1 then xs[1].gap else []) + Core(xs[1..])
  }

  function ErasedCore(xs: seq<Spaced>): bytes {
    if xs == [] then [] else Kept(xs[0].item) + (if |xs| > 1 then xs[1].gap else []) + ErasedCore(xs[1..])
  }

  lemma {:induction false} WrittenIsCore(xs: seq<Spaced>, last: bytes)
    requires xs != []
    ensures Written(xs, last) == xs[0].gap + Core(xs) + last
    decreases |xs|
  {
    hide ItemBytes;
    if |xs| > 1 {
      WrittenIsCore(xs[1..], last);
      Regrouped(xs[0].gap, ItemBytes(xs[0].item), xs[1].gap, Core(xs[1..]), last);
    } else {
      assert xs[1..] == [];
    }
  }

  lemma {:induction false} ErasedIsCore(xs: seq<Spaced>, last: bytes)
    requires xs != []
    ensures Erased(xs, last) == xs[0].gap + ErasedCore(xs) + last
    decreases |xs|
  {
    hide Kept;
    if |xs| > 1 {
      ErasedIsCore(xs[1..], last);
      Regrouped(xs[0].gap, Kept(xs[0].item), xs[1].gap, ErasedCore(xs[1..]), last);
    } else {
      assert xs[1..] == [];
    }
  }

  lemma Regrouped(a: bytes, t: bytes, b: bytes, core: bytes, last: bytes)
    ensures a + t + (b + core + last) == a + (t + b + core) + last
  {
  }

  /** Nothing is left of a template part exactly when it is all references without whitespace. */
  lemma {:induction false} ErasedIsNothingIff(caps: map<bytes, Capture>, xs: seq<Spaced>, last: bytes)
    requires EmptyRefsAndDrops(caps, xs)
    ensures Erased(xs, last) == [] <==> AllEmptyRefs(caps, xs) && Gaps(xs, last) == []
    decreases |xs|
  {
    if xs != [] {
      assert xs[0] in xs;
      forall x | x in xs[1..] ensures x in xs {}
      ErasedIsNothingIff(caps, xs[1..], last);
      assert AllEmptyRefs(caps, xs) <==> xs[0].item.Ref? && AllEmptyRefs(caps, xs[1..]) by {
        assert forall x | x in xs :: x == xs[0] || x in xs[1..];
      }
    }
  }

  /** The first item of a core is read apart from the rest. */
  lemma CoreParts(s: bytes, i: nat, xs: seq<Spaced>, last: bytes)
    requires i <= |s| && xs != [] && s[i..] == Core(xs)
    requires WellSpaced(xs, last) && (forall x | x in xs :: !x.item.Literal?)
    ensures var gap, text := (if |xs| > 1 then xs[1].gap else []), ItemBytes(xs[0].item);
            var next := i + |text|;
            && next + |gap| <= |s| && s[next..next + |gap|] == gap && s[next + |gap|..] == Core(xs[1..])
            && text != [] && s[i..next] == text && (next < |s| ==> !IsIdentCont(s[next]))
  {
    hide *;
    UnfoldSpaced(xs, last);
    UnfoldCore(xs);
    FirstByte(xs[0].item);
    var text, gap := ItemBytes(xs[0].item), if |xs| > 1 then xs[1].gap else [];
    assert s[i..] == text + gap + Core(xs[1..]);
    Cut(s, i, text, gap, Core(xs[1..]));
    PartedHead(s, i, text, gap, Core(xs[1..]));
    CoreFollows(xs, last);
  }

  /** The first item of a core renders as what is kept of it. */
  lemma RenderFirst(s: bytes, i: nat, x: Item, caps: map<bytes, Capture>)
    requires ItemFits(x) && (x.Dropped? || (x.Ref? && IsEmptySeq(caps, x.name)))
    requires ItemBytes(x) != [] && i + |ItemBytes(x)| <= |s| && s[i..i + |ItemBytes(x)|] == ItemBytes(x)
    requires i + |ItemBytes(x)| < |s| ==> !IsIdentCont(s[i + |ItemBytes(x)|])
    ensures Render(s, i, caps) == Prepend(Kept(x), Render(s, i + |ItemBytes(x)|, caps))
  {
    hide *;
    ItemShape(x);
    KeptIs(x);
    var next := i + |ItemBytes(x)|;
    if x.Ref? {
      RefLexes(s, i, x.name, x.dollars);
      EmptyPiece(caps, x.name, x.dollars, i, next);
      RenderRef(s, i, next, caps);
      PrependNothing(Render(s, next, caps));
    } else {
      assert s[i] == s[i..next][0];
      RenderStep(s, i, caps);
      assert [s[i]] == s[i..next];
    }
  }

  lemma KeptIs(x: Item)
    ensures Kept(x) == if x.Ref? then [] else ItemBytes(x)
  {
  }

  lemma PartedHead(s: bytes, i: nat, text: bytes, gap: bytes, core: bytes)
    requires Parted(s, i, text, gap, core)
    ensures var next := i + |text|;
            && next + |gap| <= |s| && s[i..next] == text && s[next..next + |gap|] == gap && s[next + |gap|..] == core
            && (next < |s| ==> gap + core != [] && s[next] == (gap + core)[0])
  {
  }

  /** Rendering erases the references to empty sequences and leaves everything else. */
  lemma {:induction false} RenderErases(s: bytes, i: nat, xs: seq<Spaced>, last: bytes, caps: map<bytes, Capture>)
    requires i <= |s| && xs != [] && s[i..] == Core(xs)
    requires WellSpaced(xs, last) && EmptyRefsAndDrops(caps, xs)
    ensures Render(s, i, caps) == Ok(ErasedCore(xs))
    decreases |xs|
  {
    hide *;
    NoLiterals(caps, xs);
    CoreParts(s, i, xs, last);
    UnfoldSpaced(xs, last);
    OfFirst(caps, xs);
    RenderFirst(s, i, xs[0].item, caps);
    UnfoldErasedCore(xs);
    var next, gap := i + |ItemBytes(xs[0].item)|, if |xs| > 1 then xs[1].gap else [];
    if |xs| == 1 {
      UnfoldCore(xs[1..]);
      UnfoldErasedCore(xs[1..]);
      assert next == |s|;
      RenderStep(s, |s|, caps);
      NoSpace();
    } else {
      UnfoldSpaced(xs[1..], last);
      RenderErases(s, next + |gap|, xs[1..], last, caps);
    }
    RenderErasesStep(s, i, next, gap, Kept(xs[0].item), ErasedCore(xs[1..]), caps);
  }

  /** What is kept of an item, then its gap, then the rest. */
  lemma RenderErasesStep(s: bytes, i: nat, next: nat, gap: bytes, kept: bytes, more: bytes,
          caps: map<bytes, Capture>)
    requires i <= next && next + |gap| <= |s| && s[next..next + |gap|] == gap && AllSpace(gap)
    requires Render(s, i, caps) == Prepend(kept, Render(s, next, caps)) && Render(s, next + |gap|, caps) == Ok(more)
    ensures Render(s, i, caps) == Ok(kept + (gap + more))
  {
    hide *;
    RenderGapThen(s, next, gap, more, caps);
    PrependOk(kept, gap + more);
  }

  lemma NoSpace()
    ensures AllSpace([])
  {
  }

  lemma PrependOk(p: bytes, more: bytes)
    ensures Prepend(p, Ok(more)) == Ok(p + more)
  {
  }

  lemma OfFirst(caps: map<bytes, Capture>, xs: seq<Spaced>)
    requires xs != [] && EmptyRefsAndDrops(caps, xs)
    ensures var x := xs[0].item; x.Dropped? || (x.Ref? && IsEmptySeq(caps, x.name))
    ensures EmptyRefsAndDrops(caps, xs[1..])
  {
    assert xs[0] in xs;
    forall x | x in xs[1..] ensures x in xs {}
  }

  lemma UnfoldErasedCore(xs: seq<Spaced>)
    ensures ErasedCore(xs) == if xs == [] then []
                              else Kept(xs[0].item) + ((if |xs| > 1 then xs[1].gap else []) + ErasedCore(xs[1..]))
  {
    if xs != [] {
      var g := if |xs| > 1 then xs[1].gap else [];
      assert Kept(xs[0].item) + g + ErasedCore(xs[1..]) == Kept(xs[0].item) + (g + ErasedCore(xs[1..]));
    }
  }

  lemma RenderGapThen(s: bytes, i: nat, gap: bytes, more: bytes, caps: map<bytes, Capture>)
    requires i + |gap| <= |s| && s[i..i + |gap|] == gap && AllSpace(gap)
    requires Render(s, i + |gap|, caps) == Ok(more)
    ensures Render(s, i, caps) == Ok(gap + more)
  {
    hide Render;
    RenderGap(s, i, i + |gap|, caps);
  }

  /** A reference that stands for nothing renders as what follows it. */
  lemma RenderRef(s: bytes, i: nat, next: nat, caps: map<bytes, Capture>)
    requires i < next <= |s| && s[i] == DOLLAR && Lex(s, i).Ok? && Lex(s, i).value.end == next
    requires Piece(Lex(s, i).value, caps) == Ok([])
    ensures Render(s, i, caps) == Render(s, next, caps)
  {
    hide Render, Lex, Piece;
    RenderStep(s, i, caps);
    PrependNothing(Render(s, next, caps));
  }

  lemma UnfoldCore(xs: seq<Spaced>)
    ensures Core(xs) == if xs == [] then [] else ItemBytes(xs[0].item) + ((if |xs| > 1 then xs[1].gap else []) + Core(xs[1..]))
  {
    hide ItemBytes;
    if xs != [] {
      Regroup(ItemBytes(xs[0].item), if |xs| > 1 then xs[1].gap else [], Core(xs[1..]));
    }
  }

  /** What follows a reference inside a core is whitespace, a dollar or a dropped byte. */
  lemma CoreFollows(xs: seq<Spaced>, last: bytes)
    requires xs != [] && WellSpaced(xs, last) && (forall x | x in xs :: !x.item.Literal?)
    ensures var more := (if |xs| > 1 then xs[1].gap else []) + Core(xs[1..]);
            more != [] ==> !IsIdentCont(more[0])
  {
    if |xs| > 1 {
      UnfoldSpaced(xs, last);
      UnfoldSpaced(xs[1..], last);
      assert xs[1] in xs && xs[1..][0] == xs[1];
      NoInkFirst(xs[1].item);
      UnfoldCore(xs[1..]);
      if xs[1].gap != [] {
        assert (xs[1].gap + Core(xs[1..]))[0] == xs[1].gap[0];
      } else {
        assert (xs[1].gap + Core(xs[1..]))[0] == ItemBytes(xs[1].item)[0];
      }
    }
  }

  lemma NoInkFirst(x: Item)
    requires ItemFits(x) && !x.Literal?
    ensures ItemBytes(x) != [] && !IsIdentCont(ItemBytes(x)[0])
  {
  }

  lemma RefIsSpelled(t: Token, name: bytes, d: nat)
    requires (d == 1 && t.kind.KindNode?) || (d == 3 && t.kind.KindSeq?)
    requires t.name == name
    ensures Spelling(t) == Dollars(d) + name && |Spelling(t)| == d + |name|
  {
  }

  lemma RefEndsAt(s: bytes, t: Token)
    requires (t.kind.KindNode? || t.kind.KindSeq?) && (t.end < |s| ==> !IsIdentCont(s[t.end]))
    ensures EndsAt(t, s)
  {
    hide IsIdentCont;
  }

  lemma RefLexes(s: bytes, i: nat, name: bytes, d: nat)
    requires (d == 1 || d == 3) && IsIdentifier(name)
    requires i + d + |name| <= |s| && s[i..i + d + |name|] == Dollars(d) + name
    requires i + d + |name| < |s| ==> !IsIdentCont(s[i + d + |name|])
    ensures s[i] == DOLLAR
    ensures Lex(s, i) == Ok(Token(name, if d == 1 then KindNode else KindSeq, i, i + d + |name|))
  {
    var t := Token(name, if d == 1 then KindNode else KindSeq, i, i + d + |name|);
    assert NameFits(t);
    RefIsSpelled(t, name, d);
    hide *;
    assert s[t.start..t.end] == Spelling(t);
    RefEndsAt(s, t);
    SpelledIsLexed(s, t);
  }

  lemma EmptyPiece(caps: map<bytes, Capture>, name: bytes, d: nat, i: nat, e: nat)
    requires IsEmptySeq(caps, name)
    ensures Piece(Token(name, if d == 1 then KindNode else KindSeq, i, e), caps) == Ok([])
  {
  }

  lemma {:induction false} RenderGap(s: bytes, i: nat, j: nat, caps: map<bytes, Capture>)
    requires i <= j <= |s| && AllSpace(s[i..j])
    ensures Render(s, i, caps) == Prepend(s[i..j], Render(s, j, caps))
    decreases j - i
  {
    hide Render;
    if i == j {
      PrependNothing(Render(s, j, caps));
    } else {
      assert s[i] == s[i..j][0];
      RenderStep(s, i, caps);
      assert s[i + 1..j] == s[i..j][1..];
      RenderGap(s, i + 1, j, caps);
      PrependTwice([s[i]], s[i + 1..j], Render(s, j, caps));
      assert s[i..j] == [s[i]] + s[i + 1..j];
    }
  }

  lemma {:induction false} LeadSpaceIs(s: bytes, k: nat)
    requires k <= |s| && AllSpace(s[..k]) && (k < |s| ==> !IsSpace(s[k]))
    ensures LeadSpace(s) == k
  {
    if k > 0 {
      assert s[0] == s[..k][0];
      assert s[1..][..k - 1] == s[..k][1..];
      LeadSpaceIs(s[1..], k - 1);
    }
  }

  lemma {:induction false} TrailSpaceIs(s: bytes, k: nat)
    requires k <= |s| && AllSpace(s[|s| - k..]) && (k < |s| ==> !IsSpace(s[|s| - k - 1]))
    ensures TrailSpace(s) == k
  {
    var n := |s|;
    if k > 0 {
      assert s[n - 1] == s[n - k..][k - 1];
      var t := s[..n - 1];
      assert t[|t| - (k - 1)..] == s[n - k..][..k - 1];
      TrailSpaceIs(t, k - 1);
    }
  }

  /** A region of references and dropped bytes splits into its first gap, its core and the last gap. */
  lemma EmptyRegionSplits(xs: seq<Spaced>, last: bytes)
    requires xs != [] && WellSpaced(xs, last) && (forall x | x in xs :: !x.item.Literal?)
    ensures SplitEdges(Written(xs, last)) == (xs[0].gap, Core(xs), last)
  {
    hide *;
    WrittenIsCore(xs, last);
    UnfoldSpaced(xs, last);
    CoreEnds(xs, last);
    EdgesAre(Written(xs, last), xs[0].gap, Core(xs), last);
  }

  lemma EdgesAre(s: bytes, a: bytes, core: bytes, last: bytes)
    requires s == a + core + last && AllSpace(a) && AllSpace(last)
    requires core != [] && !IsSpace(core[0]) && !IsSpace(core[|core| - 1])
    ensures SplitEdges(s) == (a, core, last)
  {
    hide LeadSpace, TrailSpace, AllSpace, IsSpace;
    var n := |a| + |core|;
    assert s[..|a|] == a && s[|a|..n] == core && s[n..] == last && |s| - |last| == n;
    assert s[|a|] == core[0] && s[n - 1] == core[|core| - 1];
    LeadSpaceIs(s, |a|);
    TrailSpaceIs(s, |last|);
  }

  lemma {:induction false} CoreEnds(xs: seq<Spaced>, last: bytes)
    requires xs != [] && WellSpaced(xs, last) && (forall x | x in xs :: !x.item.Literal?)
    ensures Core(xs) != [] && !IsSpace(Core(xs)[0]) && !IsSpace(Core(xs)[|Core(xs)| - 1]) && AllSpace(last)
    decreases |xs|
  {
    UnfoldSpaced(xs, last);
    UnfoldCore(xs);
    assert xs[0] in xs;
    FirstByte(xs[0].item);
    LastByte(xs[0].item);
    if |xs| > 1 {
      forall x | x in xs[1..] ensures x in xs {}
      CoreEnds(xs[1..], last);
      assert Core(xs)[|Core(xs)| - 1] == Core(xs[1..])[|Core(xs[1..])| - 1];
    } else {
      assert xs[1..] == [];
      UnfoldCore([]);
      assert Core(xs) == ItemBytes(xs[0].item);
    }
  }

  lemma LastByte(x: Item)
    requires ItemFits(x) && !x.Literal?
    ensures var t := ItemBytes(x); t != [] && !IsSpace(t[|t| - 1])
  {
    var t := ItemBytes(x);
    assert x.Ref? ==> t[|t| - 1] == x.name[|x.name| - 1];
  }

  /** A template that repeats the pattern, whose tail the identity probe does not pass, inserts there what is
      left of the tail without its references: its whitespace and its dropped bytes. */
  lemma TailIsInserted(m: RawMatch, src: bytes, anchors: seq<Anchor>,
          xs: seq<Spaced>, last: bytes, rest: seq<Spaced>, left: seq<nat>)
    requires Anchorable(m, src) && anchors != []
    requires Tiling(anchors, m.captures[OUTER].start, m.captures[OUTER].end)
    requires WellSpaced(xs, last) && |left| == |m.dropped|
    requires var c := ContextOf(m, Written(xs, last), anchors);
             Repeats(c, xs, last, 0, Widths(m.dropped), rest, left) && Trim(c.template[ProbeEnd(c)..]) != []
    requires rest != [] && EmptyRefsAndDrops(m.captures, rest)
    ensures var outer, at := m.captures[OUTER], anchors[|anchors| - 1].srcEnd;
            && outer.start <= at <= outer.end
            && Spliced(m, Written(xs, last), src, anchors)
               == Ok(src[outer.start..at] + Erased(rest, last) + src[at..outer.end])
  {
    hide HeadFrom, TailFrom, Written, WellSpaced, Trim, DroppedTail, Repeats, Erased, Core, ErasedCore, SplitEdges, Render,
         Recovered, Widths, IsEmptySeq, EmptyRefsAndDrops;
    var outer, c := m.captures[OUTER], ContextOf(m, Written(xs, last), anchors);
    var at := anchors[|anchors| - 1].srcEnd;
    assert c.template[0..] == c.template;
    var off := HeadReadsAll(c, 0, xs, last, 0, Widths(c.spans), rest, left);
    HeadScanIs(c, off, left);
    assert !SaysNothingNew(c);
    TailOfAll(c, HeadScan(c));
    assert c.template[off..|c.template|] == Written(rest, last);
    NoLiterals(m.captures, rest);
    EmptyRegionSplits(rest, last);
    var core := Core(rest);
    assert core[0..] == core;
    RenderErases(core, 0, rest, last, m.captures);
    SeamHasNoEdges(src, at, m.comments);
    ErasedIsCore(rest, last);
    assert rest[0].gap + [] + ErasedCore(rest) + [] + last == Erased(rest, last);
  }

  /** The probe passes no reference, so a tail that names an empty sequence is inserted without it. */
  lemma TrailingEmptyRefsInsertTheRest(m: RawMatch, src: bytes, anchors: seq<Anchor>,
          xs: seq<Spaced>, last: bytes, rest: seq<Spaced>, left: seq<nat>)
    requires Anchorable(m, src) && anchors != []
    requires Tiling(anchors, m.captures[OUTER].start, m.captures[OUTER].end)
    requires WellSpaced(xs, last) && |left| == |m.dropped|
    requires var c := ContextOf(m, Written(xs, last), anchors);
             Repeats(c, xs, last, 0, Widths(m.dropped), rest, left)
    requires HasRef(rest) && EmptyRefsAndDrops(m.captures, rest)
    ensures var outer, at := m.captures[OUTER], anchors[|anchors| - 1].srcEnd;
            && outer.start <= at <= outer.end
            && Spliced(m, Written(xs, last), src, anchors)
               == Ok(src[outer.start..at] + Erased(rest, last) + src[at..outer.end])
  {
    var c := ContextOf(m, Written(xs, last), anchors);
    assert c.template[0..] == c.template;
    assert rest != [];
    hide HeadFrom, HeadScan, Spliced, Written, WellSpaced, Trim, Repeats, Erased, Widths, EmptyRefsAndDrops, HasRef, ProbeEnd;
    var off := HeadReadsAll(c, 0, xs, last, 0, Widths(c.spans), rest, left);
    HeadScanIs(c, off, left);
    RefSurvivesProbe(c, off, rest, last, left);
    TailIsInserted(m, src, anchors, xs, last, rest, left);
  }

  lemma NoLiterals(caps: map<bytes, Capture>, xs: seq<Spaced>)
    requires EmptyRefsAndDrops(caps, xs)
    ensures forall x | x in xs :: !x.item.Literal?
  {
  }

  /** What stands behind the dropped bytes the budget covers. */
  function Unpaid(c: Context, xs: seq<Spaced>, last: bytes, left: seq<nat>): bytes
    requires |left| == |c.spans|
    decreases |xs|
  {
    if xs == [] then last
    else if !xs[0].item.Dropped? then Written(xs, last)
    else
      var n := |c.anchors|;
      match Pay(c.spans, left, xs[0].item.b, WindowLow(c.anchors, n - 1), WindowHigh(c.anchors, n))
      case None => Written(xs, last)
      case Some(paid) => Unpaid(c, xs[1..], last, paid)
  }

  predicate AllDrops(xs: seq<Spaced>) {
    forall x | x in xs :: x.item.Dropped?
  }

  /** The probe leaves of a tail of dropped bytes what they do not pay for. */
  lemma {:induction false} ProbeLeavesUnpaid(c: Context, ti: nat, xs: seq<Spaced>, last: bytes, left: seq<nat>)
    requires ti <= |c.template| && |left| == |c.spans|
    requires c.template[ti..] == Written(xs, last) && WellSpaced(xs, last) && AllDrops(xs)
    ensures Trim(c.template[DroppedTail(c, |c.anchors|, ti, left)..]) == [] <==> Trim(Unpaid(c, xs, last, left)) == []
    decreases |xs|
  {
    hide Written, WellSpaced, Pay, WindowLow, WindowHigh, SkipSpace, ItemFits, ItemBytes, IsSpace, IsIdentCont, Stops, Trim;
    hide Parted, DroppedTail, Dollars, IsIdentifier, AllSpace;
    if xs == [] {
      BlankRest(c.template, ti, last);
      DroppedTailEnds(c, ti, left);
      LastIsSpace(last);
      TrimOfSpace(last);
      TrimOfNothing();
    } else {
      assert xs[0] in xs;
      UnfoldSpaced(xs, last);
      ItemShape(xs[0].item);
      FirstItem(c.template, ti, xs, last);
      PartedBounds(c.template, ti, xs[0].gap, ItemBytes(xs[0].item), Written(xs[1..], last));
      PartedByte(c.template, ti, xs[0].gap, ItemBytes(xs[0].item), Written(xs[1..], last));
      var j, n := ti + |xs[0].gap|, |c.anchors|;
      var paid := Pay(c.spans, left, xs[0].item.b, WindowLow(c.anchors, n - 1), WindowHigh(c.anchors, n));
      if paid.Some? {
        forall x | x in xs[1..] ensures x in xs {}
        DroppedTailPays(c, ti, left, j, paid.value);
        ProbeLeavesUnpaid(c, j + 1, xs[1..], last, paid.value);
      } else {
        DroppedTailStops(c, ti, left, j);
      }
    }
  }

  lemma DroppedTailStops(c: Context, ti: nat, left: seq<nat>, j: nat)
    requires ti <= j < |c.template| && |left| == |c.spans| && SkipSpace(c.template, ti) == j
    requires Pay(c.spans, left, c.template[j], WindowLow(c.anchors, |c.anchors| - 1), WindowHigh(c.anchors, |c.anchors|)).None?
    ensures DroppedTail(c, |c.anchors|, ti, left) == ti
  {
    hide Pay, WindowLow, WindowHigh, SkipSpace;
  }

  lemma LastIsSpace(last: bytes)
    requires WellSpaced([], last)
    ensures AllSpace(last)
  {
  }

  lemma TrimOfNothing()
    ensures Trim([]) == []
  {
  }

  lemma NothingPays(c: Context, xs: seq<Spaced>, last: bytes)
    requires c.spans == []
    ensures Unpaid(c, xs, last, []) == Written(xs, last)
  {
    hide WindowLow, WindowHigh;
  }

  /** Over every tail of references to empty sequences and dropped bytes, paid for or not: a tail that names a
      sequence yields the matched span exactly when it is all references with no whitespace around them; any
      other exactly when what stands behind the affordable dropped bytes trims to nothing. */
  lemma IdentityIff(m: RawMatch, src: bytes, anchors: seq<Anchor>, xs: seq<Spaced>, last: bytes,
          rest: seq<Spaced>, left: seq<nat>)
    requires Anchorable(m, src) && anchors != []
    requires Tiling(anchors, m.captures[OUTER].start, m.captures[OUTER].end)
    requires WellSpaced(xs, last) && |left| == |m.dropped|
    requires Repeats(ContextOf(m, Written(xs, last), anchors), xs, last, 0, Widths(m.dropped), rest, left)
    requires EmptyRefsAndDrops(m.captures, rest)
    ensures Spliced(m, Written(xs, last), src, anchors) == Ok(src[m.captures[OUTER].start..m.captures[OUTER].end])
       <==> if HasRef(rest) then AllEmptyRefs(m.captures, rest) && Gaps(rest, last) == []
            else Trim(Unpaid(ContextOf(m, Written(xs, last), anchors), rest, last, left)) == []
  {
    var c := ContextOf(m, Written(xs, last), anchors);
    DropsWithoutRef(m.captures, rest);
    hide HeadFrom, HeadScan, Written, WellSpaced, Repeats, Erased, Gaps, Widths, AllEmptyRefs, EmptyRefsAndDrops, HasRef, Trim,
         Unpaid, ProbeEnd, SaysNothingNew, TailScan, Rewritten;
    ErasedIsNothingIff(m.captures, rest, last);
    if HasRef(rest) {
      TrailingEmptyRefsInsertTheRest(m, src, anchors, xs, last, rest, left);
      InsertedTail(m, src, anchors, rest, last);
    } else {
      ProbeIsUnpaid(c, xs, last, rest, left);
      if Trim(c.template[ProbeEnd(c)..]) != [] {
        BlankIsUnpaid(c, rest, last, left);
        TailIsInserted(m, src, anchors, xs, last, rest, left);
        InsertedTail(m, src, anchors, rest, last);
        DropsAreKept(m.captures, rest, last);
      }
    }
  }

  lemma InsertedTail(m: RawMatch, src: bytes, anchors: seq<Anchor>, rest: seq<Spaced>, last: bytes)
    requires Anchorable(m, src) && anchors != []
    requires m.captures[OUTER].start <= anchors[|anchors| - 1].srcEnd <= m.captures[OUTER].end
    ensures var outer, at := m.captures[OUTER], anchors[|anchors| - 1].srcEnd;
            src[outer.start..at] + Erased(rest, last) + src[at..outer.end] == src[outer.start..outer.end]
            <==> Erased(rest, last) == []
  {
    hide Erased;
    InsertedIsNothingIff(src, m.captures[OUTER].start, anchors[|anchors| - 1].srcEnd, m.captures[OUTER].end, Erased(rest, last));
  }

  lemma DropsWithoutRef(caps: map<bytes, Capture>, xs: seq<Spaced>)
    requires EmptyRefsAndDrops(caps, xs)
    ensures !HasRef(xs) ==> AllDrops(xs)
  {
  }

  lemma DropsAreKept(caps: map<bytes, Capture>, xs: seq<Spaced>, last: bytes)
    requires !HasRef(xs) && xs != []
    ensures !AllEmptyRefs(caps, xs)
  {
    assert xs[0] in xs;
  }

  lemma BlankIsUnpaid(c: Context, xs: seq<Spaced>, last: bytes, left: seq<nat>)
    requires |left| == |c.spans| && WellSpaced(xs, last) && Trim(Unpaid(c, xs, last, left)) != []
    ensures xs != []
  {
    hide Trim;
    if xs == [] {
      TrimOfSpace(last);
    }
  }

  /** The probe says nothing new exactly when what is not paid for trims to nothing. */
  lemma ProbeIsUnpaid(c: Context, xs: seq<Spaced>, last: bytes, rest: seq<Spaced>, left: seq<nat>)
    requires c.template == Written(xs, last) && WellSpaced(xs, last) && |left| == |c.spans| && c.anchors != []
    requires Repeats(c, xs, last, 0, Widths(c.spans), rest, left) && AllDrops(rest)
    ensures SaysNothingNew(c) <==> Trim(Unpaid(c, rest, last, left)) == []
    ensures Trim(c.template[ProbeEnd(c)..]) == [] <==> Trim(Unpaid(c, rest, last, left)) == []
    ensures WellSpaced(rest, last)
  {
    assert c.template[0..] == c.template;
    hide HeadFrom, HeadScan, Written, WellSpaced, Repeats, Widths, Trim, Unpaid, DroppedTail, AllDrops;
    var off := HeadReadsAll(c, 0, xs, last, 0, Widths(c.spans), rest, left);
    HeadScanIs(c, off, left);
    if c.spans == [] {
      NothingPays(c, rest, last);
    } else {
      ProbeLeavesUnpaid(c, off, rest, last, left);
    }
  }

  /** A no-break space behind the last token is no dropped byte and no reference, and is trimmed all the same. */
  lemma UnpaidWideSpaceVanishes(c: Context)
    requires c.spans == []
    ensures Trim(Unpaid(c, [Spaced([], Dropped(0xC2)), Spaced([], Dropped(0xA0))], [], [])) == []
  {
    var xs := [Spaced([], Dropped(0xC2)), Spaced([], Dropped(0xA0))];
    NothingPays(c, xs, []);
    assert xs[1..] == [Spaced([], Dropped(0xA0))] && xs[1..][1..] == [];
    assert Written(xs[1..], []) == [0xA0];
    var s := Written(xs, []);
    assert s == [0xC2, 0xA0];
    assert s[..2] == s && IsWideSpace(s) && s[2..] == [];
    assert TrimLeft(s) == [];
  }

  const B: bytes := [0x42]

  /** An empty `case`: the pattern `:$$$B;` matched `:`, its sequence found nothing and its `;` was dropped. */
  function EmptyCase(): RawMatch {
    RawMatch(map[OUTER := Capture([0x3A], "case", 1, 0, 1, []), B := Capture([], "", 0, 0, 0, [])],
             [TokenAlign(0, 1, 0, 1)], [Range(5, 6)], [])
  }

  const COLON: byte := 0x3A
  const SEMICOLON: byte := 0x3B

  function CaseTail(): seq<Spaced> {
    [Spaced([], Ref(B, 3)), Spaced([], Dropped(SEMICOLON))]
  }

  function CaseItems(): seq<Spaced> {
    [Spaced([], Literal([COLON]))] + CaseTail()
  }

  lemma CaseIsWellSpaced()
    ensures WellSpaced(CaseItems(), []) && Written(CaseItems(), []) == [COLON, DOLLAR, DOLLAR, DOLLAR, 0x42, SEMICOLON]
    ensures Erased(CaseTail(), []) == [SEMICOLON] && Gaps(CaseItems(), []) == []
  {
    var xs, rest := CaseItems(), CaseTail();
    var one := rest[1..];
    assert xs[1..] == rest && one == [Spaced([], Dropped(SEMICOLON))] && one[1..] == [];
    assert WellSpaced(one, []);
    assert IsIdentifier(B);
    assert ItemBytes(rest[0].item) == [DOLLAR, DOLLAR, DOLLAR, 0x42];
    assert Dollars(3) == [DOLLAR, DOLLAR, DOLLAR];
    assert WellSpaced(rest, []);
    hide Dollars, IsIdentifier;
  }

  function CaseAnchors(): seq<Anchor> {
    [Anchor([], [COLON], 0, 1, 0, 1)]
  }

  lemma CaseIsAnchored()
    ensures Anchorable(EmptyCase(), [COLON]) && Tiling(CaseAnchors(), 0, 1)
    ensures EmptyCase().captures[OUTER].start == 0 && EmptyCase().captures[OUTER].end == 1
    ensures HasRef(CaseTail()) && EmptyRefsAndDrops(EmptyCase().captures, CaseTail())
  {
    assert CaseTail()[0] in CaseTail();
    assert OUTER != B by { assert |OUTER| != |B|; }
  }

  lemma CaseRepeats()
    ensures var c, left := ContextOf(EmptyCase(), Written(CaseItems(), []), CaseAnchors()), Widths(EmptyCase().dropped);
            Repeats(c, CaseItems(), [], 0, left, CaseTail(), left)
  {
    hide Written, Widths;
    var c, left := ContextOf(EmptyCase(), Written(CaseItems(), []), CaseAnchors()), Widths(EmptyCase().dropped);
    assert CaseItems()[1..] == CaseTail();
    assert Repeats(c, CaseTail(), [], 1, left, CaseTail(), left);
  }

  /** A tail that mixes the two fails without any whitespace: the dropped byte stays. */
  lemma MixedTailKeepsItsByte()
    ensures var template := Written(CaseItems(), []);
            && template == [COLON, DOLLAR, DOLLAR, DOLLAR, 0x42, SEMICOLON] && Gaps(CaseItems(), []) == []
            && Anchorable(EmptyCase(), [COLON]) && Tiling(CaseAnchors(), 0, 1)
            && Spliced(EmptyCase(), template, [COLON], CaseAnchors()) == Ok([COLON, SEMICOLON])
  {
    CaseIsAnchored();
    hide *;
    CaseIsWellSpaced();
    CaseRepeats();
    CaseEnd();
    TrailingEmptyRefsInsertTheRest(EmptyCase(), [COLON], CaseAnchors(), CaseItems(), [], CaseTail(), Widths(EmptyCase().dropped));
    assert [COLON][0..1] + [SEMICOLON] + [COLON][1..1] == [COLON, SEMICOLON];
  }

  lemma CaseEnd()
    ensures CaseAnchors() != [] && CaseAnchors()[|CaseAnchors()| - 1].srcEnd == 1
  {
  }

  lemma InsertedIsNothingIff(src: bytes, a: nat, at: nat, b: nat, text: bytes)
    requires a <= at <= b <= |src|
    ensures src[a..at] + text + src[at..b] == src[a..b] <==> text == []
  {
    assert src[a..b] == src[a..at] + src[at..b];
    if text != [] {
      assert |src[a..at] + text + src[at..b]| != |src[a..b]|;
    } else {
      assert src[a..at] + [] == src[a..at];
    }
  }

  lemma HeadScanIs(c: Context, off: nat, left: seq<nat>)
    requires HeadFrom(c, 0, 0, Widths(c.spans)) == Scan(|c.anchors|, off, left)
    ensures HeadScan(c) == Scan(|c.anchors|, off, left)
  {
  }

  lemma TailOfAll(c: Context, head: Scan)
    requires head == HeadScan(c) && head.anchors == |c.anchors|
    ensures TailScan(c) == Scan(0, |c.template|, head.left)
  {
    hide HeadFrom, TailFrom;
    TailStep(c, head, |c.template|, 0, head.left);
  }

  /** The identity probe cannot pay its way past a reference: names are identifier bytes. */
  lemma RefSurvivesProbe(c: Context, off: nat, rest: seq<Spaced>, last: bytes, left: seq<nat>)
    requires HeadScan(c) == Scan(|c.anchors|, off, left) && off <= |c.template| && |left| == |c.spans|
    requires c.template[off..] == Written(rest, last) && WellSpaced(rest, last) && HasRef(rest)
    ensures Trim(c.template[ProbeEnd(c)..]) != []
  {
    hide Written, WellSpaced, HeadScan, Trim, DroppedTail, HasRef, IsIdentCont;
    var s := c.template;
    var k := InkOfRef(s, off, rest, last);
    if c.spans != [] {
      ProbeStopsAtInk(c, off, left, k);
    }
    var end := ProbeEnd(c);
    assert end <= k;
    assert s[end..][k - end] == s[k];
    TrimKeepsInk(s[end..], k - end);
  }

  lemma {:induction false} InkOfRef(s: bytes, off: nat, xs: seq<Spaced>, last: bytes) returns (k: nat)
    requires off <= |s| && s[off..] == Written(xs, last) && WellSpaced(xs, last) && HasRef(xs)
    ensures off <= k < |s| && IsIdentCont(s[k])
    decreases |xs|
  {
    hide Written, WellSpaced, SkipSpace, ItemBytes, ItemFits, Parted, Stops, AllSpace, IsSpace, IsIdentCont;
    UnfoldSpaced(xs, last);
    FirstItem(s, off, xs, last);
    var gap, x, more := xs[0].gap, xs[0].item, Written(xs[1..], last);
    PartedBounds(s, off, gap, ItemBytes(x), more);
    if x.Ref? {
      k := InkOfFirst(s, off, gap, x, more);
    } else {
      var y :| y in xs && y.item.Ref?;
      assert y in xs[1..];
      k := InkOfRef(s, off + |gap| + |ItemBytes(x)|, xs[1..], last);
    }
  }

  lemma InkOfFirst(s: bytes, off: nat, gap: bytes, x: Item, more: bytes) returns (k: nat)
    requires off <= |s| && x.Ref? && ItemFits(x) && Parted(s, off, gap, ItemBytes(x), more)
    ensures off <= k < |s| && IsIdentCont(s[k])
  {
    k := off + |gap| + x.dollars;
    assert s[k] == s[off + |gap|..off + |gap| + |ItemBytes(x)|][x.dollars] == x.name[0];
  }

  lemma {:induction false} ProbeStopsAtInk(c: Context, ti: nat, left: seq<nat>, k: nat)
    requires ti <= k < |c.template| && |left| == |c.spans| && IsIdentCont(c.template[k])
    ensures DroppedTail(c, |c.anchors|, ti, left) <= k
    decreases |c.template| - ti
  {
    hide Pay, WindowLow, WindowHigh, SkipSpace;
    var s, n := c.template, |c.anchors|;
    var j := SkipSpace(s, ti);
    SpaceBefore(s, ti, k);
    var paid := Pay(c.spans, left, s[j], WindowLow(c.anchors, n - 1), WindowHigh(c.anchors, n));
    if paid.Some? {
      PaidIsNoInk(c.spans, left, s[j], WindowLow(c.anchors, n - 1), WindowHigh(c.anchors, n));
      ProbeStopsAtInk(c, j + 1, paid.value, k);
    }
  }

  lemma SpaceBefore(s: bytes, ti: nat, k: nat)
    requires ti <= k < |s| && IsIdentCont(s[k])
    ensures SkipSpace(s, ti) <= k
  {
    hide SkipSpace;
  }

  lemma PaidIsNoInk(spans: seq<Range>, left: seq<nat>, tok: byte, low: nat, high: nat)
    requires |left| == |spans| && Pay(spans, left, tok, low, high).Some?
    ensures !IsIdentCont(tok)
  {
  }

  /** A zero-width seam has no whitespace and no comments. */
  lemma SeamHasNoEdges(src: bytes, at: nat, comments: seq<Range>)
    requires at <= |src|
    ensures Recovered(src, at, at, comments) == Edges([], [], [], [])
  {
    assert src[at..at] == [];
  }
}
