/**
 Which anchors survive when a match's own candidates have rivals. The own ones stand apart from each other;
 the rivals may lie anywhere in the replaced span.
 */
module AnchorRivals {
  import opened SpliceAnchors

  /** An anchor list over the candidates `c`. */
  ghost predicate Lists(c: iset<Anchor>, lo: nat, hi: nat, kept: seq<Anchor>) {
    && Tiling(kept, lo, hi)
    && (forall k | k in kept :: k in c)
    && (forall x | x in c :: x in kept || Shadowed(x, kept))
  }

  /** Own candidates and rivals, all with extent, the own ones apart. */
  ghost predicate Contest(own: iset<Anchor>, rivals: iset<Anchor>) {
    && own !! rivals
    && (forall x | x in own || x in rivals :: x.srcStart < x.srcEnd)
    && (forall x, y | x in own && y in own && x != y :: NoOverlap(x, y))
  }

  predicate StrictlyBefore(x: Anchor, y: Anchor) {
    x.srcStart < y.srcStart || (x.srcStart == y.srcStart && x.srcEnd < y.srcEnd)
  }

  /** An own candidate that sorts earlier covers the first byte. */
  ghost predicate Covered(own: iset<Anchor>, x: Anchor) {
    exists o | o in own :: StrictlyBefore(o, x) && x.srcStart < o.srcEnd
  }

  ghost predicate AllCovered(own: iset<Anchor>, rivals: iset<Anchor>) {
    forall h | h in rivals :: Covered(own, h)
  }

  /** Two anchors overlap, so a list holds one of them at most. */
  lemma Excludes(c: iset<Anchor>, lo: nat, hi: nat, kept: seq<Anchor>, x: Anchor, y: Anchor)
    requires Lists(c, lo, hi, kept) && x in kept && x != y && !NoOverlap(x, y)
    ensures y !in kept
  {
    hide Tiling, NoOverlap;
    if y in kept {
      AnchorsApart(kept, lo, hi, x, y);
    }
  }

  /** A candidate that is left out has an anchor over its first byte that sorts no later. */
  lemma Over(c: iset<Anchor>, lo: nat, hi: nat, kept: seq<Anchor>, x: Anchor) returns (k: Anchor)
    requires Lists(c, lo, hi, kept) && x in c && x !in kept
    ensures k in kept && k in c && Before(k, x) && x.srcStart < k.srcEnd
  {
    hide Tiling;
    k :| k in kept && Before(k, x) && x.srcStart < k.srcEnd;
  }

  // ----- when rivals change nothing -----

  /** Where own anchors cover every rival, no rival is ever kept: the first one kept would be covered by an own
      anchor that itself is not. */
  lemma {:induction false} CoveredNeverKept(own: iset<Anchor>, rivals: iset<Anchor>, lo: nat, hi: nat, kept: seq<Anchor>, i: nat)
    requires Contest(own, rivals) && AllCovered(own, rivals) && Lists(own + rivals, lo, hi, kept) && i < |kept|
    ensures kept[i] in own
    decreases i
  {
    hide Tiling, Lists;
    assert kept[i] in kept && kept[i] in own + rivals by { KeptIsOne(own + rivals, lo, hi, kept, i); }
    if kept[i] in rivals {
      var h := kept[i];
      var o :| o in own && StrictlyBefore(o, h) && h.srcStart < o.srcEnd;
      Excludes(own + rivals, lo, hi, kept, h, o);
      var k := Over(own + rivals, lo, hi, kept, o);
      var j := EarlierIndex(own + rivals, lo, hi, kept, i, k);
      CoveredNeverKept(own, rivals, lo, hi, kept, j);
    }
  }

  lemma KeptIsOne(c: iset<Anchor>, lo: nat, hi: nat, kept: seq<Anchor>, i: nat)
    requires Lists(c, lo, hi, kept) && i < |kept|
    ensures kept[i] in c
  {
  }

  lemma EarlierIndex(c: iset<Anchor>, lo: nat, hi: nat, kept: seq<Anchor>, i: nat, k: Anchor) returns (j: nat)
    requires Lists(c, lo, hi, kept) && i < |kept| && k in kept && StrictlyBefore(k, kept[i])
    ensures j < i && kept[j] == k
  {
    j :| 0 <= j < |kept| && kept[j] == k;
  }

  /** Swapping an anchor for a candidate of the same span gives another list. */
  lemma Swapped(c: iset<Anchor>, lo: nat, hi: nat, kept: seq<Anchor>, i: nat, h: Anchor)
    requires Lists(c, lo, hi, kept) && i < |kept| && h in c
    requires kept[i].srcStart == h.srcStart && kept[i].srcEnd == h.srcEnd
    ensures Lists(c, lo, hi, kept[i := h])
  {
    var swapped := kept[i := h];
    forall x | x in c ensures x in swapped || Shadowed(x, swapped) {
      assert swapped[i] == h && h in swapped;
      if x in kept {
        var j :| 0 <= j < |kept| && kept[j] == x;
        assert j != i ==> swapped[j] == x;
      } else {
        var k :| k in kept && Before(k, x) && x.srcStart < k.srcEnd;
        var j :| 0 <= j < |kept| && kept[j] == k;
        assert swapped[j] in swapped;
      }
    }
  }

  /** Every list is the own anchors alone exactly when an own anchor that sorts earlier covers each rival. */
  lemma RivalsChangeNothingIff(own: iset<Anchor>, rivals: iset<Anchor>, lo: nat, hi: nat, list: seq<Anchor>, built: seq<Anchor>)
    requires Contest(own, rivals) && Tiling(list, lo, hi) && (forall x :: x in list <==> x in own)
    requires Lists(own + rivals, lo, hi, built)
    ensures (forall kept | Lists(own + rivals, lo, hi, kept) :: kept == list) <==> AllCovered(own, rivals)
  {
    hide Tiling, Lists;
    if AllCovered(own, rivals) {
      forall kept | Lists(own + rivals, lo, hi, kept) ensures kept == list {
        OnlyOwnKept(own, rivals, lo, hi, list, kept);
      }
    }
    if forall kept | Lists(own + rivals, lo, hi, kept) :: kept == list {
      forall h | h in rivals ensures Covered(own, h) {
        SoleListCovers(own, rivals, lo, hi, list, built, h);
      }
    }
  }

  lemma OnlyOwnKept(own: iset<Anchor>, rivals: iset<Anchor>, lo: nat, hi: nat, list: seq<Anchor>, kept: seq<Anchor>)
    requires Contest(own, rivals) && Tiling(list, lo, hi) && (forall x :: x in list <==> x in own)
    requires Lists(own + rivals, lo, hi, kept) && AllCovered(own, rivals)
    ensures kept == list
  {
    hide Tiling, Lists;
    forall x ensures x in kept <==> x in own {
      if x in kept {
        var i :| 0 <= i < |kept| && kept[i] == x;
        CoveredNeverKept(own, rivals, lo, hi, kept, i);
      }
      if x in own && x !in kept {
        var k := Over(own + rivals, lo, hi, kept, x);
        var i :| 0 <= i < |kept| && kept[i] == k;
        CoveredNeverKept(own, rivals, lo, hi, kept, i);
      }
    }
    ListTiles(own + rivals, lo, hi, kept);
    TilingIsUnique(kept, list, lo, hi);
  }

  lemma ListTiles(c: iset<Anchor>, lo: nat, hi: nat, kept: seq<Anchor>)
    requires Lists(c, lo, hi, kept)
    ensures Tiling(kept, lo, hi)
  {
  }

  lemma SoleListCovers(own: iset<Anchor>, rivals: iset<Anchor>, lo: nat, hi: nat, list: seq<Anchor>, built: seq<Anchor>, h: Anchor)
    requires Contest(own, rivals) && (forall x :: x in list <==> x in own) && h in rivals
    requires Lists(own + rivals, lo, hi, built) && forall kept | Lists(own + rivals, lo, hi, kept) :: kept == list
    ensures Covered(own, h)
  {
    hide Tiling, Lists;
    assert built == list;
    var k := Over(own + rivals, lo, hi, list, h);
    if !StrictlyBefore(k, h) {
      var i :| 0 <= i < |list| && list[i] == k;
      assert list[i := h][i] == h;
      Swapped(own + rivals, lo, hi, list, i, h);
    }
  }

  // ----- when the own anchors survive -----

  /** A rival that takes an own anchor's place: it sorts no later than an own one and covers its first byte, no
      own anchor sorts ahead of it and covers its first byte, and no shorter rival starts with it. */
  ghost predicate Harms(own: iset<Anchor>, rivals: iset<Anchor>, h: Anchor) {
    && h in rivals && !Covered(own, h)
    && (forall g | g in rivals && g.srcStart == h.srcStart :: h.srcEnd <= g.srcEnd)
    && (exists x | x in own :: Before(h, x) && x.srcStart < h.srcEnd)
  }

  ghost predicate OwnSurvive(own: iset<Anchor>, kept: seq<Anchor>) {
    forall x | x in own :: x in kept
  }

  /** Rivals lie inside one another or apart, as the spans of tree nodes do. */
  ghost predicate Nested(rivals: iset<Anchor>) {
    forall x, y | x in rivals && y in rivals ::
      NoOverlap(x, y) || (x.srcStart <= y.srcStart && y.srcEnd <= x.srcEnd) || (y.srcStart <= x.srcStart && x.srcEnd <= y.srcEnd)
  }

  /** Where no rival harms, every list holds every own candidate. */
  lemma {:induction false} UnharmedSurvives(own: iset<Anchor>, rivals: iset<Anchor>, lo: nat, hi: nat, kept: seq<Anchor>, x: Anchor)
    requires Contest(own, rivals) && Lists(own + rivals, lo, hi, kept) && x in own
    requires forall h | h in rivals :: !Harms(own, rivals, h)
    ensures x in kept
    decreases x.srcStart
  {
    hide Tiling, Lists;
    if x !in kept {
      var k := Over(own + rivals, lo, hi, kept, x);
      assert !NoOverlap(k, x);
      assert k in rivals && !Harms(own, rivals, k);
      if Covered(own, k) {
        var o :| o in own && StrictlyBefore(o, k) && k.srcStart < o.srcEnd;
        Excludes(own + rivals, lo, hi, kept, k, o);
        assert o != x && NoOverlap(o, x);
        UnharmedSurvives(own, rivals, lo, hi, kept, o);
      } else {
        var g :| g in rivals && g.srcStart == k.srcStart && g.srcEnd < k.srcEnd;
        ShorterWins(own + rivals, lo, hi, kept, k, g);
      }
    }
  }

  lemma AllUnharmedSurvive(own: iset<Anchor>, rivals: iset<Anchor>, lo: nat, hi: nat, kept: seq<Anchor>)
    requires Contest(own, rivals) && Lists(own + rivals, lo, hi, kept) && forall h | h in rivals :: !Harms(own, rivals, h)
    ensures OwnSurvive(own, kept)
  {
    hide Contest, Lists, Harms;
    forall x | x in own ensures x in kept {
      UnharmedSurvives(own, rivals, lo, hi, kept, x);
    }
  }

  lemma ShorterWins(c: iset<Anchor>, lo: nat, hi: nat, kept: seq<Anchor>, x: Anchor, h: Anchor)
    requires Lists(c, lo, hi, kept) && h in c
    requires h.srcStart == x.srcStart && h.srcStart < h.srcEnd < x.srcEnd
    ensures x !in kept
  {
    hide Tiling, Lists;
    if x in kept {
      Excludes(c, lo, hi, kept, x, h);
      var k := Over(c, lo, hi, kept, h);
      Excludes(c, lo, hi, kept, x, k);
    }
  }

  /** Where rivals nest, every list holds every own candidate exactly when no rival harms. */
  lemma OwnSurviveIff(own: iset<Anchor>, rivals: iset<Anchor>, lo: nat, hi: nat, built: seq<Anchor>)
    requires Contest(own, rivals) && Lists(own + rivals, lo, hi, built) && Nested(rivals)
    ensures (forall kept | Lists(own + rivals, lo, hi, kept) :: OwnSurvive(own, kept))
       <==> (forall h | h in rivals :: !Harms(own, rivals, h))
  {
    hide Tiling, Lists;
    if forall h | h in rivals :: !Harms(own, rivals, h) {
      forall kept | Lists(own + rivals, lo, hi, kept) ensures OwnSurvive(own, kept) {
        AllUnharmedSurvive(own, rivals, lo, hi, kept);
      }
    }
    if forall kept | Lists(own + rivals, lo, hi, kept) :: OwnSurvive(own, kept) {
      forall h | h in rivals ensures !Harms(own, rivals, h) {
        if Harms(own, rivals, h) {
          HarmTakes(own, rivals, lo, hi, built, h);
        }
      }
    }
  }

  /** A rival that harms takes an own anchor's place in this list, or in the one it swaps itself into. */
  lemma HarmTakes(own: iset<Anchor>, rivals: iset<Anchor>, lo: nat, hi: nat, built: seq<Anchor>, h: Anchor)
    requires Contest(own, rivals) && Lists(own + rivals, lo, hi, built) && Nested(rivals) && Harms(own, rivals, h)
    ensures exists kept :: Lists(own + rivals, lo, hi, kept) && !OwnSurvive(own, kept)
  {
    hide Tiling, Lists;
    var x :| x in own && Before(h, x) && x.srcStart < h.srcEnd;
    if OwnSurvive(own, built) {
      assert x in built && !NoOverlap(x, h);
      Excludes(own + rivals, lo, hi, built, x, h);
      var k := Over(own + rivals, lo, hi, built, h);
      if k in own {
        var i :| 0 <= i < |built| && built[i] == k;
        Swapped(own + rivals, lo, hi, built, i, h);
        SwappedOut(own + rivals, lo, hi, built, i, h);
        assert k !in built[i := h];
      } else {
        assert !NoOverlap(k, h) && !NoOverlap(k, x);
        Excludes(own + rivals, lo, hi, built, k, x);
      }
    }
  }

  lemma SwappedOut(c: iset<Anchor>, lo: nat, hi: nat, kept: seq<Anchor>, i: nat, h: Anchor)
    requires Lists(c, lo, hi, kept) && i < |kept| && h != kept[i]
    ensures kept[i] !in kept[i := h]
  {
  }
}
