/**
 Placeholder substitution: each capture placeholder of a pattern becomes a reserved identifier the
 grammar can parse, and the parsed leaves are recognised again by their text alone. That works
 because the replacements are pairwise distinct.
 */
module Substitution {
  import opened Bytes
  import opened SyntaxTree
  import opened MatchRecords
  import opened PlaceholderDsl

  /** A placeholder and the identifier standing in for it. */
  datatype Sub = Sub(token: Token, replacement: bytes)

  const WILD: bytes := [0x57, 0x49, 0x4C, 0x44]
  const SEQWILD: bytes := [0x53, 0x45, 0x51] + WILD
  const SEQ_: bytes := [0x53, 0x45, 0x51, UNDERSCORE]

  /** `<reserved><stem>__<n>` */
  function Indexed(reserved: bytes, stem: bytes, n: nat): bytes {
    reserved + (stem + [UNDERSCORE, UNDERSCORE] + Decimal(n))
  }

  /** The part of the identifier that names the placeholder. */
  function Stem(t: Token): bytes {
    match t.kind
    case KindNode => t.name
    case KindNodeWild => WILD
    case KindSeq => SEQ_ + t.name
    case _ => SEQWILD
  }

  /** What an occurrence is counted under: its name, or its wildcard class. Single and sequence
      placeholders of one name share a counter. */
  datatype Counter = Named(name: bytes) | Wilds | SeqWilds

  function CounterOf(t: Token): Counter {
    match t.kind
    case KindNode => Named(t.name)
    case KindNodeWild => Wilds
    case KindSeq => Named(t.name)
    case _ => SeqWilds
  }

  function Captures(ts: seq<Token>): seq<Token> {
    if ts == [] then []
    else if ts[0].kind.KindLiteralDollar? then Captures(ts[1..])
    else [ts[0]] + Captures(ts[1..])
  }

  /** How many of the tokens are counted under `c`. */
  function Count(ts: seq<Token>, c: Counter): nat {
    if ts == [] then 0
    else Count(ts[..|ts| - 1], c)
         + (if !ts[|ts| - 1].kind.KindLiteralDollar? && CounterOf(ts[|ts| - 1]) == c then 1 else 0)
  }

  /** The identifier for the token that follows `before`. */
  function ReplacementAfter(reserved: bytes, before: seq<Token>, t: Token): bytes {
    Indexed(reserved, Stem(t), Count(before, CounterOf(t)))
  }

  function SubsOf(reserved: bytes, ts: seq<Token>): seq<Sub> {
    if ts == [] then []
    else
      var before, t := ts[..|ts| - 1], ts[|ts| - 1];
      SubsOf(reserved, before)
      + (if t.kind.KindLiteralDollar? then [] else [Sub(t, ReplacementAfter(reserved, before, t))])
  }

  /** What each token contributes to the substituted text. */
  function SubstitutedTo(reserved: bytes, source: bytes, ts: seq<Token>, cursor: nat, before: seq<Token>): bytes
    decreases |ts|
  {
    if ts == [] then Slice(source, cursor, |source|)
    else
      Slice(source, cursor, ts[0].start)
      + (if ts[0].kind.KindLiteralDollar? then [DOLLAR] else ReplacementAfter(reserved, before, ts[0]))
      + SubstitutedTo(reserved, source, ts[1..], ts[0].end, before + [ts[0]])
  }

  /** One token later, in every measure the pass keeps. */
  lemma PassStep(reserved: bytes, source: bytes, ts: seq<Token>, i: nat, cursor: nat)
    requires i < |ts|
    ensures SubstitutedTo(reserved, source, ts[i..], cursor, ts[..i])
         == Slice(source, cursor, ts[i].start)
            + (if ts[i].kind.KindLiteralDollar? then [DOLLAR] else ReplacementAfter(reserved, ts[..i], ts[i]))
            + SubstitutedTo(reserved, source, ts[i + 1..], ts[i].end, ts[..i + 1])
    ensures SubsOf(reserved, ts[..i + 1])
         == SubsOf(reserved, ts[..i])
            + (if ts[i].kind.KindLiteralDollar? then []
               else [Sub(ts[i], ReplacementAfter(reserved, ts[..i], ts[i]))])
    ensures forall c :: Count(ts[..i + 1], c) == Count(ts[..i], c)
                        + (if !ts[i].kind.KindLiteralDollar? && CounterOf(ts[i]) == c then 1 else 0)
  {
    hide Indexed, Stem, CounterOf;
    assert ts[i..][0] == ts[i] && ts[i..][1..] == ts[i + 1..];
    assert ts[..i + 1] == ts[..i] + [ts[i]] && ts[..i + 1][..i] == ts[..i];
  }

  /** The number a capture placeholder gets, and the counters after it. */
  method NextOccurrence(ph: Token, nameOccur: map<bytes, nat>, wildIdx: nat, seqWildIdx: nat, ghost before: seq<Token>)
    returns (occ: nat, nameOccur': map<bytes, nat>, wildIdx': nat, seqWildIdx': nat)
    requires !ph.kind.KindLiteralDollar?
    requires wildIdx == Count(before, Wilds) && seqWildIdx == Count(before, SeqWilds)
    requires Counted(nameOccur, before)
    ensures occ == Count(before, CounterOf(ph))
    ensures wildIdx' == wildIdx + if CounterOf(ph) == Wilds then 1 else 0
    ensures seqWildIdx' == seqWildIdx + if CounterOf(ph) == SeqWilds then 1 else 0
    ensures forall name: bytes :: (if name in nameOccur' then nameOccur'[name] else 0)
                                  == Count(before, Named(name)) + if CounterOf(ph) == Named(name) then 1 else 0
  {
    hide Count;
    nameOccur', wildIdx', seqWildIdx' := nameOccur, wildIdx, seqWildIdx;
    match ph.kind {
      case KindNode | KindSeq =>
        occ := if ph.name in nameOccur then nameOccur[ph.name] else 0;
        nameOccur' := nameOccur[ph.name := occ + 1];
      case KindNodeWild =>
        occ := wildIdx;
        wildIdx' := wildIdx + 1;
      case KindSeqWild =>
        occ := seqWildIdx;
        seqWildIdx' := seqWildIdx + 1;
    }
  }

  ghost predicate Counted(nameOccur: map<bytes, nat>, before: seq<Token>) {
    forall name: bytes :: (if name in nameOccur then nameOccur[name] else 0) == Count(before, Named(name))
  }

  /** What the pass has done when `i` tokens are behind it. */
  ghost predicate PassAt(reserved: bytes, source: bytes, ts: seq<Token>, i: nat, cursor: nat, b: bytes, subs: seq<Sub>)
  {
    && i <= |ts| && cursor <= |source| && Tiled(source, ts[i..], cursor)
    && subs == SubsOf(reserved, ts[..i])
    && b + SubstitutedTo(reserved, source, ts[i..], cursor, ts[..i]) == SubstitutedTo(reserved, source, ts, 0, [])
  }

  lemma PassKeeps(reserved: bytes, source: bytes, ts: seq<Token>, i: nat, cursor: nat, b: bytes, subs: seq<Sub>,
          piece: bytes)
    requires PassAt(reserved, source, ts, i, cursor, b, subs) && i < |ts|
    requires piece == if ts[i].kind.KindLiteralDollar? then [DOLLAR] else ReplacementAfter(reserved, ts[..i], ts[i])
    ensures cursor <= ts[i].start <= |source|
    ensures PassAt(reserved, source, ts, i + 1, ts[i].end, b + source[cursor..ts[i].start] + piece,
                   if ts[i].kind.KindLiteralDollar? then subs else subs + [Sub(ts[i], piece)])
  {
    hide Tiled, Lex, SubsOf, SubstitutedTo, ReplacementAfter;
    TiledStep(source, ts[i..], cursor);
    assert ts[i..][1..] == ts[i + 1..];
    PassStep(reserved, source, ts, i, cursor);
    var gap, rest := source[cursor..ts[i].start], SubstitutedTo(reserved, source, ts[i + 1..], ts[i].end, ts[..i + 1]);
    assert (b + gap + piece) + rest == b + (gap + piece + rest);
    assert subs + [] == subs;
  }

  lemma PassStarts(reserved: bytes, source: bytes, ts: seq<Token>)
    requires Tiled(source, ts, 0)
    ensures PassAt(reserved, source, ts, 0, 0, [], [])
  {
    assert ts[0..] == ts && ts[..0] == [];
  }

  lemma PassEnds(reserved: bytes, source: bytes, ts: seq<Token>, cursor: nat, b: bytes, subs: seq<Sub>)
    requires PassAt(reserved, source, ts, |ts|, cursor, b, subs)
    ensures cursor <= |source| && b + source[cursor..] == SubstitutedTo(reserved, source, ts, 0, [])
    ensures subs == SubsOf(reserved, ts)
  {
    assert ts[..|ts|] == ts && ts[|ts|..] == [];
  }

  /** Rewrites the pattern source in one pass, counting occurrences as it goes. */
  method SubstitutePlaceholders(source: bytes, ts: seq<Token>, reserved: bytes)
    returns (text: bytes, subs: seq<Sub>)
    requires Tiled(source, ts, 0)
    ensures text == SubstitutedTo(reserved, source, ts, 0, [])
    ensures subs == SubsOf(reserved, ts)
  {
    hide Indexed, Tiled, Lex, SubsOf, SubstitutedTo, Stem, PassAt;
    var b: bytes := [];
    subs := [];
    var cursor: nat, wildIdx: nat, seqWildIdx: nat := 0, 0, 0;
    var nameOccur: map<bytes, nat> := map[];
    PassStarts(reserved, source, ts);
    for i := 0 to |ts|
      invariant PassAt(reserved, source, ts, i, cursor, b, subs)
      invariant wildIdx == Count(ts[..i], Wilds) && seqWildIdx == Count(ts[..i], SeqWilds)
      invariant Counted(nameOccur, ts[..i])
    {
      hide Count;
      var ph := ts[i];
      PassStep(reserved, source, ts, i, cursor);
      var piece := [DOLLAR];
      ghost var sofar := subs;
      if !ph.kind.KindLiteralDollar? {
        var occ;
        occ, nameOccur, wildIdx, seqWildIdx := NextOccurrence(ph, nameOccur, wildIdx, seqWildIdx, ts[..i]);
        piece := Indexed(reserved, Stem(ph), occ);
        subs := subs + [Sub(ph, piece)];
      }
      PassKeeps(reserved, source, ts, i, cursor, b, sofar, piece);
      b := b + source[cursor..ph.start] + piece;
      cursor := ph.end;
    }
    PassEnds(reserved, source, ts, cursor, b, subs);
    text := b + source[cursor..];
  }

  lemma TiledStep(s: bytes, ts: seq<Token>, i: nat)
    requires Tiled(s, ts, i) && ts != []
    ensures i <= ts[0].start < ts[0].end <= |s| && Tiled(s, ts[1..], ts[0].end)
  {
  }

  // ----- distinctness -----

  /** The names whose substituted form is the form of something else. */
  predicate Reserved(t: Token) {
    t.kind.KindNode? && (t.name == WILD || t.name == SEQWILD || SEQ_ <= t.name)
  }

  /** An indexed identifier gives back its stem and its number. */
  lemma IndexedInjective(r: bytes, a: bytes, m: nat, b: bytes, n: nat)
    requires Indexed(r, a, m) == Indexed(r, b, n)
    ensures a == b && m == n
  {
    var x, y := a + [UNDERSCORE, UNDERSCORE] + Decimal(m), b + [UNDERSCORE, UNDERSCORE] + Decimal(n);
    assert x == Indexed(r, a, m)[|r|..] && y == Indexed(r, b, n)[|r|..];
    var i, j := |a| + 1, |b| + 1;
    assert x[i] == UNDERSCORE && y[j] == UNDERSCORE;
    assert forall k | i < k < |x| :: x[k] == Decimal(m)[k - i - 1];
    assert forall k | j < k < |y| :: y[k] == Decimal(n)[k - j - 1];
    assert i == j;
    assert x[..|a|] == a && y[..|b|] == b;
    assert x[i + 1..] == Decimal(m) && y[j + 1..] == Decimal(n);
    DecimalInjective(m, n);
  }

  lemma SeqStem(t: Token)
    requires t.kind.KindSeq?
    ensures SEQ_ <= Stem(t) && Stem(t)[4..] == t.name && Stem(t)[0] == SEQ_[0] && Stem(t)[3] == SEQ_[3]
  {
  }

  lemma StemNamesCounter(t: Token, u: Token)
    requires !t.kind.KindLiteralDollar? && !u.kind.KindLiteralDollar?
    requires !Reserved(t) && !Reserved(u) && Stem(t) == Stem(u)
    ensures CounterOf(t) == CounterOf(u)
  {
    if t.kind.KindSeq? { SeqStem(t); }
    if u.kind.KindSeq? { SeqStem(u); }
    assert WILD[0] != SEQ_[0] && SEQWILD[3] != SEQ_[3] && |WILD| != |SEQWILD|;
  }

  lemma {:induction false} CountGrows(ts: seq<Token>, i: nat, c: Counter)
    requires i < |ts| && !ts[i].kind.KindLiteralDollar? && CounterOf(ts[i]) == c
    ensures Count(ts[..i], c) < Count(ts, c)
  {
    var n := |ts| - 1;
    if i < n {
      CountGrows(ts[..n], i, c);
      assert ts[..n][..i] == ts[..i];
    }
  }

  /** Every substitution comes from one token, counted after the tokens before it. */
  lemma {:induction false} SubAt(reserved: bytes, ts: seq<Token>, k: nat) returns (i: nat)
    requires k < |SubsOf(reserved, ts)|
    ensures i < |ts| && !ts[i].kind.KindLiteralDollar?
    ensures SubsOf(reserved, ts)[k] == Sub(ts[i], ReplacementAfter(reserved, ts[..i], ts[i]))
    ensures k == |SubsOf(reserved, ts[..i])|
  {
    var n := |ts| - 1;
    if k < |SubsOf(reserved, ts[..n])| {
      i := SubAt(reserved, ts[..n], k);
      assert ts[..n][..i] == ts[..i];
    } else {
      i := n;
    }
  }

  lemma {:induction false} SubsPrefix(reserved: bytes, ts: seq<Token>, i: nat, j: nat)
    requires i <= j <= |ts|
    ensures |SubsOf(reserved, ts[..i])| <= |SubsOf(reserved, ts[..j])|
    decreases j
  {
    hide ReplacementAfter;
    if i < j {
      SubsPrefix(reserved, ts, i, j - 1);
      assert ts[..j][..j - 1] == ts[..j - 1];
    }
  }

  /** No two capture placeholders with one stem, counted apart, come to the same number. */
  ghost predicate Unambiguous(ts: seq<Token>) {
    forall i, j | 0 <= i < j < |ts| && Rivals(ts[i], ts[j]) ::
      Count(ts[..i], CounterOf(ts[i])) != Count(ts[..j], CounterOf(ts[j]))
  }

  predicate Rivals(t: Token, u: Token) {
    && !t.kind.KindLiteralDollar? && !u.kind.KindLiteralDollar?
    && Stem(t) == Stem(u) && CounterOf(t) != CounterOf(u)
  }

  lemma NoReservedIsUnambiguous(ts: seq<Token>)
    requires forall t | t in ts :: !Reserved(t)
    ensures Unambiguous(ts)
  {
    hide Reserved, Stem, CounterOf, Count;
    forall i, j | 0 <= i < j < |ts| && Rivals(ts[i], ts[j]) ensures false {
      StemNamesCounter(ts[i], ts[j]);
    }
  }

  /** The substitution a token gives. */
  lemma {:induction false} SubOfToken(reserved: bytes, ts: seq<Token>, i: nat) returns (k: nat)
    requires i < |ts| && !ts[i].kind.KindLiteralDollar?
    ensures k == |SubsOf(reserved, ts[..i])| < |SubsOf(reserved, ts)|
    ensures SubsOf(reserved, ts)[k] == Sub(ts[i], ReplacementAfter(reserved, ts[..i], ts[i]))
    decreases |ts|
  {
    hide ReplacementAfter;
    var n := |ts| - 1;
    if i < n {
      k := SubOfToken(reserved, ts[..n], i);
      assert ts[..n][..i] == ts[..i];
    } else {
      k := |SubsOf(reserved, ts[..n])|;
    }
  }

  ghost predicate AllDistinct(subs: seq<Sub>) {
    forall k, l | 0 <= k < l < |subs| :: subs[k].replacement != subs[l].replacement
  }

  /** No two placeholders share an identifier exactly when the pattern is unambiguous. */
  lemma ReplacementsDistinctIff(reserved: bytes, ts: seq<Token>)
    ensures AllDistinct(SubsOf(reserved, ts)) <==> Unambiguous(ts)
  {
    hide Indexed, Stem, CounterOf, Count, SubsOf, Rivals;
    if Unambiguous(ts) {
      forall k, l | 0 <= k < l < |SubsOf(reserved, ts)|
        ensures SubsOf(reserved, ts)[k].replacement != SubsOf(reserved, ts)[l].replacement
      {
        ReplacementsDiffer(reserved, ts, k, l);
      }
    }
    if AllDistinct(SubsOf(reserved, ts)) {
      forall i, j | 0 <= i < j < |ts| && Rivals(ts[i], ts[j])
        ensures Count(ts[..i], CounterOf(ts[i])) != Count(ts[..j], CounterOf(ts[j]))
      {
        RivalsDiffer(reserved, ts, i, j);
      }
    }
  }

  lemma ReplacementsDiffer(reserved: bytes, ts: seq<Token>, k: nat, l: nat)
    requires Unambiguous(ts) && k < l < |SubsOf(reserved, ts)|
    ensures SubsOf(reserved, ts)[k].replacement != SubsOf(reserved, ts)[l].replacement
  {
    hide Indexed, Stem, CounterOf, Count, SubsOf, Unambiguous;
    var i := SubAt(reserved, ts, k);
    var j := SubAt(reserved, ts, l);
    if i >= j {
      SubsPrefix(reserved, ts, j, i);
    }
    var t, u := ts[i], ts[j];
    if SubsOf(reserved, ts)[k].replacement == SubsOf(reserved, ts)[l].replacement {
      IndexedInjective(reserved, Stem(t), Count(ts[..i], CounterOf(t)), Stem(u), Count(ts[..j], CounterOf(u)));
      if CounterOf(t) == CounterOf(u) {
        assert ts[..j][..i] == ts[..i];
        CountGrows(ts[..j], i, CounterOf(t));
      } else {
        CountedApart(ts, i, j);
      }
    }
  }

  lemma CountedApart(ts: seq<Token>, i: nat, j: nat)
    requires Unambiguous(ts) && i < j < |ts| && !ts[i].kind.KindLiteralDollar? && !ts[j].kind.KindLiteralDollar?
    requires Stem(ts[i]) == Stem(ts[j]) && CounterOf(ts[i]) != CounterOf(ts[j])
    ensures Count(ts[..i], CounterOf(ts[i])) != Count(ts[..j], CounterOf(ts[j]))
  {
    hide Stem, CounterOf, Count;
    assert Rivals(ts[i], ts[j]);
  }

  lemma RivalsDiffer(reserved: bytes, ts: seq<Token>, i: nat, j: nat)
    requires AllDistinct(SubsOf(reserved, ts)) && i < j < |ts| && Rivals(ts[i], ts[j])
    ensures Count(ts[..i], CounterOf(ts[i])) != Count(ts[..j], CounterOf(ts[j]))
  {
    hide Indexed, Stem, CounterOf, Count, SubsOf;
    var k := SubOfToken(reserved, ts, i);
    var l := SubOfToken(reserved, ts, j);
    NextIsBehind(reserved, ts, i, j);
  }

  lemma NextIsBehind(reserved: bytes, ts: seq<Token>, i: nat, j: nat)
    requires i < j <= |ts| && !ts[i].kind.KindLiteralDollar?
    ensures |SubsOf(reserved, ts[..i])| < |SubsOf(reserved, ts[..j])|
  {
    hide ReplacementAfter;
    SubsPrefix(reserved, ts, i + 1, j);
    assert ts[..i + 1][..i] == ts[..i];
  }

  /** A sequence `$$$X` and a single `$SEQ_X` are written alike, and so are `$_` and `$WILD`, `$$$_` and
      `$SEQWILD`, each by itself the first of its kind. */
  lemma ReservedNamesCollide(reserved: bytes, x: bytes, s1: nat, e1: nat, s2: nat, e2: nat)
    ensures Collide(reserved, Token(x, KindSeq, s1, e1), Token(SEQ_ + x, KindNode, s2, e2))
    ensures Collide(reserved, Token([], KindNodeWild, s1, e1), Token(WILD, KindNode, s2, e2))
    ensures Collide(reserved, Token([], KindSeqWild, s1, e1), Token(SEQWILD, KindNode, s2, e2))
  {
    assert SEQ_ + x != x by { assert |SEQ_ + x| == |x| + 4; }
    FirstOfTwo(reserved, Token(x, KindSeq, s1, e1), Token(SEQ_ + x, KindNode, s2, e2));
    FirstOfTwo(reserved, Token([], KindNodeWild, s1, e1), Token(WILD, KindNode, s2, e2));
    FirstOfTwo(reserved, Token([], KindSeqWild, s1, e1), Token(SEQWILD, KindNode, s2, e2));
  }

  predicate Collide(reserved: bytes, t: Token, u: Token) {
    var subs := SubsOf(reserved, [t, u]);
    |subs| == 2 && subs[0].replacement == subs[1].replacement
  }

  lemma FirstOfTwo(reserved: bytes, t: Token, u: Token)
    requires Rivals(t, u)
    ensures Collide(reserved, t, u)
  {
    hide Stem, CounterOf, Indexed;
    assert [t, u][..1] == [t] && [t][..0] == [];
    assert SubsOf(reserved, [t]) == [] + [Sub(t, ReplacementAfter(reserved, [], t))];
    assert Count([t], CounterOf(u)) == Count([], CounterOf(u)) == 0;
  }

  /** `$X` ahead of `$$$X` takes the number `$SEQ_X` then gets, and nothing collides. */
  lemma SharedCounterAvoids(x: bytes, s1: nat, e1: nat, s2: nat, e2: nat, s3: nat, e3: nat)
    requires !(SEQ_ <= x) && x != WILD && x != SEQWILD
    ensures Unambiguous([Token(x, KindNode, s1, e1), Token(x, KindSeq, s2, e2), Token(SEQ_ + x, KindNode, s3, e3)])
  {
    var a, b, c := Token(x, KindNode, s1, e1), Token(x, KindSeq, s2, e2), Token(SEQ_ + x, KindNode, s3, e3);
    var ts := [a, b, c];
    assert SEQ_ + x != x by { assert |SEQ_ + x| == |x| + 4; }
    assert ts[..0] == [] && ts[..1] == [a] && ts[..2] == [a, b] && [a, b][..1] == [a] && [a][..0] == [];
    assert Count([], Named(x)) == 0 && Count([], Named(SEQ_ + x)) == 0;
    assert Count([a], Named(x)) == 1 && Count([a], Named(SEQ_ + x)) == 0;
    assert Count([a, b], Named(SEQ_ + x)) == 0;
    assert SEQ_ <= SEQ_ + x;
  }

  // ----- reading the identifiers back -----

  function ByText(subs: seq<Sub>): map<bytes, Token> {
    if subs == [] then map[] else ByText(subs[..|subs| - 1])[subs[|subs| - 1].replacement := subs[|subs| - 1].token]
  }

  method IndexByText(subs: seq<Sub>) returns (byText: map<bytes, Token>)
    ensures byText == ByText(subs)
  {
    byText := map[];
    for i := 0 to |subs|
      invariant byText == ByText(subs[..i])
    {
      byText := byText[subs[i].replacement := subs[i].token];
      assert subs[..i + 1][..i] == subs[..i];
    }
    assert subs[..|subs|] == subs;
  }

  lemma {:induction false} ByTextFinds(subs: seq<Sub>, k: nat)
    requires k < |subs| && forall l | k < l < |subs| :: subs[k].replacement != subs[l].replacement
    ensures subs[k].replacement in ByText(subs) && ByText(subs)[subs[k].replacement] == subs[k].token
  {
    var n := |subs| - 1;
    if k < n {
      ByTextFinds(subs[..n], k);
    }
  }

  /** Reading an identifier back recovers its placeholder, for any number of repeats. */
  lemma SubstitutionIsReadBack(reserved: bytes, ts: seq<Token>, k: nat)
    requires Unambiguous(ts) && k < |SubsOf(reserved, ts)|
    ensures var subs := SubsOf(reserved, ts);
            subs[k].replacement in ByText(subs) && ByText(subs)[subs[k].replacement] == subs[k].token
  {
    hide Unambiguous, SubsOf, ByText;
    var subs := SubsOf(reserved, ts);
    forall l | k < l < |subs| ensures subs[k].replacement != subs[l].replacement {
      ReplacementsDiffer(reserved, ts, k, l);
    }
    ByTextFinds(subs, k);
  }

  /** The substitutions are the pattern's capture placeholders, in order. */
  lemma {:induction false} SubsAreCaptures(reserved: bytes, ts: seq<Token>)
    ensures Tokens(SubsOf(reserved, ts)) == Captures(ts)
  {
    hide ReplacementAfter, Captures, Tokens;
    if ts == [] {
      NothingCaptured();
    } else {
      var n := |ts| - 1;
      SubsAreCaptures(reserved, ts[..n]);
      CapturesAppend(ts[..n], ts[n]);
      assert ts == ts[..n] + [ts[n]];
      TokensAppend(SubsOf(reserved, ts[..n]), Sub(ts[n], ReplacementAfter(reserved, ts[..n], ts[n])));
      assert SubsOf(reserved, ts[..n]) + [] == SubsOf(reserved, ts[..n]);
      assert Captures(ts[..n]) + [] == Captures(ts[..n]);
    }
  }

  function Tokens(subs: seq<Sub>): seq<Token> {
    seq(|subs|, i requires 0 <= i < |subs| => subs[i].token)
  }

  lemma NothingCaptured()
    ensures Tokens([]) == [] == Captures([])
  {
  }

  lemma TokensAppend(subs: seq<Sub>, s: Sub)
    ensures Tokens(subs + [s]) == Tokens(subs) + [s.token]
  {
  }

  lemma {:induction false} CapturesAppend(ts: seq<Token>, t: Token)
    ensures Captures(ts + [t]) == Captures(ts) + (if t.kind.KindLiteralDollar? then [] else [t])
  {
    if ts == [] {
      assert [] + [t] == [t];
    } else {
      assert (ts + [t])[0] == ts[0] && (ts + [t])[1..] == ts[1..] + [t];
      CapturesAppend(ts[1..], t);
    }
  }
}
