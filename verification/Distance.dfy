/**
 Near-miss suggestions: the entries of a vocabulary within three edits of a name, nearest first. The
 distance is computed on two rolling rows; it is the least number of single-byte edits.
 */
module Distance {
  import opened Bytes

  const MAX_DISTANCE := 3
  const MAX_SUGGESTIONS := 3

  // ----- single-byte edits -----

  /** `t` is `s` with one byte inserted, removed or replaced at `p`. */
  predicate Edited(s: bytes, t: bytes, p: nat) {
    || Inserted(s, t, p)
    || Inserted(t, s, p)
    || (|s| == |t| && p < |s| && t == s[..p] + [t[p]] + s[p + 1..])
  }

  predicate Inserted(s: bytes, t: bytes, p: nat) {
    p <= |s| && |t| == |s| + 1 && t == s[..p] + [t[p]] + s[p..]
  }

  /** `k` single-byte edits turn `a` into `b`. */
  ghost predicate Reaches(a: bytes, b: bytes, k: nat)
    decreases k
  {
    if k == 0 then a == b else exists m, p :: Edited(a, m, p) && Reaches(m, b, k - 1)
  }

  // ----- the recurrence -----

  function Min(x: int, y: int): int {
    if x <= y then x else y
  }

  function Cost(x: byte, y: byte): nat {
    if x == y then 0 else 1
  }

  function Lev(a: bytes, b: bytes): (d: nat)
    decreases |a| + |b|
  {
    if a == [] then |b|
    else if b == [] then |a|
    else Min(Lev(Init(a), b) + 1, Min(Lev(a, Init(b)) + 1, Lev(Init(a), Init(b)) + Cost(a[|a| - 1], b[|b| - 1])))
  }

  function Init(s: bytes): bytes
    requires s != []
  {
    s[..|s| - 1]
  }

  // ----- the recurrence is reached by edits -----

  lemma {:induction false} ReachesThen(a: bytes, m: bytes, b: bytes, j: nat, k: nat)
    requires Reaches(a, m, j) && Reaches(m, b, k)
    ensures Reaches(a, b, j + k)
    decreases j
  {
    hide Edited;
    if j > 0 {
      var n, p :| Edited(a, n, p) && Reaches(n, m, j - 1);
      ReachesThen(n, m, b, j - 1, k);
      assert Reaches(n, b, j + k - 1);
    }
  }

  lemma ReachesOne(a: bytes, b: bytes, p: nat)
    requires Edited(a, b, p)
    ensures Reaches(a, b, 1)
  {
    assert Reaches(b, b, 0);
  }

  lemma EditedUnderSuffix(s: bytes, t: bytes, p: nat, c: byte)
    requires Edited(s, t, p)
    ensures Edited(s + [c], t + [c], p)
  {
    if Inserted(s, t, p) {
      InsertedUnderSuffix(s, t, p, c);
    } else if Inserted(t, s, p) {
      InsertedUnderSuffix(t, s, p, c);
    } else {
      assert (s + [c])[p + 1..] == s[p + 1..] + [c] && (s + [c])[..p] == s[..p];
    }
  }

  lemma InsertedUnderSuffix(s: bytes, t: bytes, p: nat, c: byte)
    requires Inserted(s, t, p)
    ensures Inserted(s + [c], t + [c], p)
  {
    assert (s + [c])[p..] == s[p..] + [c] && (s + [c])[..p] == s[..p];
  }

  lemma {:induction false} ReachesUnderSuffix(a: bytes, b: bytes, k: nat, c: byte)
    requires Reaches(a, b, k)
    ensures Reaches(a + [c], b + [c], k)
    decreases k
  {
    if k > 0 {
      var m, p :| Edited(a, m, p) && Reaches(m, b, k - 1);
      ReachesUnderSuffix(m, b, k - 1, c);
      EditedUnderSuffix(a, m, p, c);
    }
  }

  lemma DropLast(s: bytes)
    requires s != []
    ensures Reaches(s, Init(s), 1) && Reaches(Init(s), s, 1)
  {
    var p := |s| - 1;
    assert s == Init(s)[..p] + [s[p]] + Init(s)[p..];
    assert Inserted(Init(s), s, p);
    ReachesOne(s, Init(s), p);
    ReachesOne(Init(s), s, p);
  }

  lemma SwapLast(u: bytes, x: byte, y: byte)
    ensures Reaches(u + [x], u + [y], Cost(x, y))
  {
    if x != y {
      var s, t := u + [x], u + [y];
      assert t == s[..|u|] + [t[|u|]] + s[|u| + 1..];
      ReachesOne(s, t, |u|);
    }
  }

  lemma ReachesSelf(a: bytes)
    ensures Reaches(a, a, 0)
  {
  }

  lemma LevStep(a: bytes, b: bytes)
    requires a != [] && b != []
    ensures Lev(a, b) == Min(Lev(Init(a), b) + 1, Min(Lev(a, Init(b)) + 1, Lev(Init(a), Init(b)) + Cost(a[|a| - 1], b[|b| - 1])))
  {
    hide Init, Min, Cost;
  }

  lemma LevEdge(a: bytes, b: bytes)
    ensures a == [] ==> Lev(a, b) == |b|
    ensures b == [] ==> Lev(a, b) == |a|
  {
  }

  lemma {:induction false} LevIsReached(a: bytes, b: bytes)
    ensures Reaches(a, b, Lev(a, b))
    decreases |a| + |b|
  {
    hide Reaches, Lev;
    LevEdge(a, b);
    if a == [] && b == [] {
      ReachesSelf(a);
    } else if a == [] {
      LevIsReached(a, Init(b));
      LevEdge(a, Init(b));
      DropLast(b);
      ReachesThen(a, Init(b), b, |b| - 1, 1);
    } else if b == [] {
      LevIsReached(Init(a), b);
      LevEdge(Init(a), b);
      DropLast(a);
      ReachesThen(a, Init(a), b, 1, |a| - 1);
    } else {
      LevStep(a, b);
      LevReachedInside(a, b);
    }
  }

  lemma {:induction false} LevReachedInside(a: bytes, b: bytes)
    requires a != [] && b != []
    ensures Reaches(a, b, Lev(a, b))
    decreases |a| + |b|, 0
  {
    hide Reaches, Lev, Init;
    LevStep(a, b);
    InitLength(a);
    InitLength(b);
    if Lev(a, b) == Lev(Init(a), b) + 1 {
      LevIsReached(Init(a), b);
      DropLast(a);
      ReachesThen(a, Init(a), b, 1, Lev(Init(a), b));
    } else if Lev(a, b) == Lev(a, Init(b)) + 1 {
      LevIsReached(a, Init(b));
      DropLast(b);
      ReachesThen(a, Init(b), b, Lev(a, Init(b)), 1);
    } else {
      var x, y := a[|a| - 1], b[|b| - 1];
      LevIsReached(Init(a), Init(b));
      ReachesUnderSuffix(Init(a), Init(b), Lev(Init(a), Init(b)), x);
      SwapLast(Init(b), x, y);
      ReachesThen(Init(a) + [x], Init(b) + [x], Init(b) + [y], Lev(Init(a), Init(b)), Cost(x, y));
    }
  }

  lemma InitLength(s: bytes)
    requires s != []
    ensures |Init(s)| == |s| - 1 && Init(s) + [s[|s| - 1]] == s
  {
  }

  // ----- no fewer edits suffice -----

  lemma {:induction false} LevAtMost(a: bytes, b: bytes)
    ensures a != [] ==> Lev(a, b) <= Lev(Init(a), b) + 1
    ensures b != [] ==> Lev(a, b) <= Lev(a, Init(b)) + 1
    ensures a != [] && b != [] ==> Lev(a, b) <= Lev(Init(a), Init(b)) + Cost(a[|a| - 1], b[|b| - 1])
  {
  }

  /** The two strings end in the same byte, and without it they are still one edit apart. */
  lemma EditedBeforeEnd(s: bytes, t: bytes, p: nat)
    requires Edited(s, t, p) && p + 1 < Max(|s|, |t|)
    ensures s != [] && t != [] && s[|s| - 1] == t[|t| - 1] && Edited(Init(s), Init(t), p)
  {
    if Inserted(s, t, p) {
      InsertedBeforeEnd(s, t, p);
    } else if Inserted(t, s, p) {
      InsertedBeforeEnd(t, s, p);
    } else {
      var n := |s| - 1;
      assert t[n] == (s[..p] + [t[p]] + s[p + 1..])[n];
      assert Init(t) == Init(s)[..p] + [Init(t)[p]] + Init(s)[p + 1..];
    }
  }

  lemma InsertedBeforeEnd(s: bytes, t: bytes, p: nat)
    requires Inserted(s, t, p) && p < |s|
    ensures s[|s| - 1] == t[|t| - 1] && Inserted(Init(s), Init(t), p)
  {
    assert t[|t| - 1] == (s[..p] + [t[p]] + s[p..])[|t| - 1];
    assert Init(t) == Init(s)[..p] + [Init(t)[p]] + Init(s)[p..];
  }

  function Max(x: int, y: int): int {
    if x <= y then y else x
  }

  /** An edit at the end: the two agree without their last bytes, or one is the other without its last. */
  lemma EditedAtEnd(s: bytes, t: bytes, p: nat)
    requires Edited(s, t, p) && p + 1 >= Max(|s|, |t|)
    ensures || (t != [] && Init(t) == s)
            || (s != [] && Init(s) == t)
            || (s != [] && t != [] && Init(s) == Init(t))
  {
    if Inserted(s, t, p) {
      assert s[..p] == s && t[..p] == s;
    } else if Inserted(t, s, p) {
      assert t[..p] == t && s[..p] == t;
    } else {
      assert p == |s| - 1 && t[..p] == s[..p];
    }
  }

  /** One edit moves the distance to any string by at most one. */
  lemma {:induction false} OneEditOneStep(s: bytes, t: bytes, p: nat, b: bytes)
    requires Edited(s, t, p)
    ensures Lev(s, b) <= Lev(t, b) + 1
    decreases |s| + |t| + |b|
  {
    hide Lev, Edited;
    EditedLengths(s, t, p);
    LevEdge(s, b);
    LevEdge(t, b);
    if b == [] || t == [] {
      if b != [] {
        ShortDistance(s, b);
      }
    } else {
      LevStep(t, b);
      LevAtMost(s, b);
      InitLength(b);
      InitLength(t);
      OneEditOneStep(s, t, p, Init(b));
      if p + 1 < Max(|s|, |t|) {
        EditedBeforeEnd(s, t, p);
        InitLength(s);
        OneEditOneStep(Init(s), Init(t), p, b);
        OneEditOneStep(Init(s), Init(t), p, Init(b));
      } else {
        EditedAtEnd(s, t, p);
      }
    }
  }

  lemma EditedLengths(s: bytes, t: bytes, p: nat)
    requires Edited(s, t, p)
    ensures |s| <= |t| + 1 && |t| <= |s| + 1 && s + t != []
  {
  }

  /** A string of at most one byte is no further from `b` than one more than `b` is long. */
  lemma ShortDistance(s: bytes, b: bytes)
    requires |s| <= 1
    ensures Lev(s, b) <= |b| + 1
  {
    LevAtMost(s, b);
    LevEdge([], b);
    LevEdge(s, b);
    if s != [] {
      assert Init(s) == [];
    }
  }

  lemma {:induction false} LevIsMinimal(a: bytes, b: bytes, k: nat)
    requires Reaches(a, b, k)
    ensures Lev(a, b) <= k
    decreases k
  {
    if k == 0 {
      LevSelf(a);
    } else {
      var m, p :| Edited(a, m, p) && Reaches(m, b, k - 1);
      LevIsMinimal(m, b, k - 1);
      OneEditOneStep(a, m, p, b);
    }
  }

  lemma {:induction false} LevSelf(a: bytes)
    ensures Lev(a, a) == 0
    decreases |a|
  {
    if a != [] {
      LevSelf(Init(a));
      LevAtMost(a, a);
    }
  }

  /** The recurrence gives the least number of single-byte insertions, removals and replacements. */
  lemma LevIsLeast(a: bytes, b: bytes)
    ensures Reaches(a, b, Lev(a, b))
    ensures forall k: nat | Reaches(a, b, k) :: Lev(a, b) <= k
  {
    LevIsReached(a, b);
    forall k: nat | Reaches(a, b, k) ensures Lev(a, b) <= k {
      LevIsMinimal(a, b, k);
    }
  }

  /** No sequence of edits moves a length by more than its own number. */
  lemma {:induction false} LengthBound(a: bytes, b: bytes)
    ensures |a| - |b| <= Lev(a, b) && |b| - |a| <= Lev(a, b)
    decreases |a| + |b|
  {
    hide Lev;
    LevEdge(a, b);
    if a != [] && b != [] {
      LevStep(a, b);
      InitLength(a);
      InitLength(b);
      LengthBound(Init(a), b);
      LengthBound(a, Init(b));
      LengthBound(Init(a), Init(b));
    }
  }

  // ----- two rolling rows -----

  predicate Row(row: seq<int>, a: bytes, b: bytes) {
    |row| == |b| + 1 && forall j | 0 <= j < |row| :: row[j] == Lev(a, b[..j])
  }

  lemma RowStep(a: bytes, b: bytes, i: nat, j: nat)
    requires 0 < i <= |a| && 0 < j <= |b|
    ensures Lev(a[..i], b[..j])
         == Min(Lev(a[..i - 1], b[..j]) + 1, Min(Lev(a[..i], b[..j - 1]) + 1, Lev(a[..i - 1], b[..j - 1]) + Cost(a[i - 1], b[j - 1])))
  {
    hide Lev;
    LevStep(a[..i], b[..j]);
    assert Init(a[..i]) == a[..i - 1] && Init(b[..j]) == b[..j - 1];
  }

  method EditDistance(a: bytes, b: bytes) returns (d: int)
    ensures d == Lev(a, b)
  {
    LevEdge(a, b);
    if a == b {
      LevSelf(a);
      return 0;
    }
    if |a| == 0 {
      return |b|;
    }
    if |b| == 0 {
      return |a|;
    }
    hide Lev;
    var prev, cur := new int[|b| + 1], new int[|b| + 1];
    for j := 0 to |b| + 1
      invariant forall k | 0 <= k < j :: prev[k] == k
    {
      prev[j] := j;
    }
    forall k | 0 <= k <= |b| ensures prev[k] == Lev(a[..0], b[..k]) {
      LevEdge(a[..0], b[..k]);
    }
    for i := 1 to |a| + 1
      invariant fresh(prev) && fresh(cur) && prev != cur && prev.Length == cur.Length == |b| + 1
      invariant Row(prev[..], a[..i - 1], b)
    {
      NextRow(a, b, i, prev, cur);
      prev, cur := cur, prev;
    }
    assert a[..|a|] == a && b[..|b|] == b;
    return prev[|b|];
  }

  method NextRow(a: bytes, b: bytes, i: nat, prev: array<int>, cur: array<int>)
    requires 0 < i <= |a| && prev != cur && prev.Length == cur.Length == |b| + 1
    requires Row(prev[..], a[..i - 1], b)
    modifies cur
    ensures Row(cur[..], a[..i], b)
  {
    hide Lev;
    cur[0] := i;
    LevEdge(a[..i], b[..0]);
    for j := 1 to |b| + 1
      invariant forall k | 0 <= k < j :: cur[k] == Lev(a[..i], b[..k])
      invariant Row(prev[..], a[..i - 1], b)
    {
      assert prev[..][j - 1] == Lev(a[..i - 1], b[..j - 1]) && prev[..][j] == Lev(a[..i - 1], b[..j]);
      RowStep(a, b, i, j);
      var substitution := prev[j - 1];
      if a[i - 1] != b[j - 1] {
        substitution := substitution + 1;
      }
      cur[j] := Min(prev[j] + 1, Min(cur[j - 1] + 1, substitution));
    }
  }

  // ----- suggestions -----

  datatype Scored = Scored(kind: bytes, dist: int)

  /** Byte-wise order. */
  predicate LexLeq(a: bytes, b: bytes) {
    a == [] || (b != [] && (a[0] < b[0] || (a[0] == b[0] && LexLeq(a[1..], b[1..]))))
  }

  predicate Nearer(x: Scored, y: Scored) {
    x.dist < y.dist || (x.dist == y.dist && LexLeq(x.kind, y.kind))
  }

  lemma {:induction false} LexAntisymmetric(a: bytes, b: bytes)
    requires LexLeq(a, b) && LexLeq(b, a)
    ensures a == b
  {
    if a != [] && b != [] {
      LexAntisymmetric(a[1..], b[1..]);
      assert a == [a[0]] + a[1..] && b == [b[0]] + b[1..];
    }
  }

  lemma {:induction false} LexTotal(a: bytes, b: bytes)
    ensures LexLeq(a, b) || LexLeq(b, a)
  {
    if a != [] && b != [] {
      LexTotal(a[1..], b[1..]);
    }
  }

  lemma {:induction false} LexTransitive(a: bytes, b: bytes, c: bytes)
    requires LexLeq(a, b) && LexLeq(b, c)
    ensures LexLeq(a, c)
  {
    if a != [] && a[0] == b[0] && b[0] == c[0] {
      LexTransitive(a[1..], b[1..], c[1..]);
    }
  }

  ghost predicate Ranked(s: seq<Scored>) {
    forall i, j | 0 <= i < j < |s| :: Nearer(s[i], s[j])
  }

  /** Every vocabulary entry within the bound, with its distance. */
  function Candidates(name: bytes, vocabulary: seq<bytes>): seq<Scored> {
    if vocabulary == [] then []
    else
      var n := |vocabulary| - 1;
      Candidates(name, vocabulary[..n])
      + if Lev(name, vocabulary[n]) <= MAX_DISTANCE then [Scored(vocabulary[n], Lev(name, vocabulary[n]))] else []
  }

  predicate Rearranged(a: seq<Scored>, b: seq<Scored>) {
    multiset(a) == multiset(b)
  }

  lemma RankedWith(s: seq<Scored>, x: Scored, k: nat)
    requires Ranked(s) && k <= |s|
    requires forall i | 0 <= i < k :: Nearer(s[i], x)
    requires k < |s| ==> !Nearer(s[k], x)
    ensures Ranked(s[..k] + [x] + s[k..]) && Rearranged(s[..k] + [x] + s[k..], s + [x])
  {
    forall i | k <= i < |s| ensures Nearer(x, s[i]) {
      NearerTotal(s[k], x);
      if i > k {
        NearerTransitive(x, s[k], s[i]);
      }
    }
    hide *;
    RankedAround(s, x, k);
    RearrangedAround(s, x, k);
  }

  lemma RankedAround(s: seq<Scored>, x: Scored, k: nat)
    requires Ranked(s) && k <= |s|
    requires (forall i | 0 <= i < k :: Nearer(s[i], x)) && (forall i | k <= i < |s| :: Nearer(x, s[i]))
    ensures Ranked(s[..k] + [x] + s[k..])
  {
    hide Nearer;
    var out := s[..k] + [x] + s[k..];
    forall i, j | 0 <= i < j < |out| ensures Nearer(out[i], out[j]) {
      assert out[i] == if i < k then s[i] else if i == k then x else s[i - 1];
      assert out[j] == if j < k then s[j] else if j == k then x else s[j - 1];
    }
  }

  lemma RearrangedAround(s: seq<Scored>, x: Scored, k: nat)
    requires k <= |s|
    ensures Rearranged(s[..k] + [x] + s[k..], s + [x])
  {
    assert s == s[..k] + s[k..];
  }

  lemma NearerTotal(x: Scored, y: Scored)
    ensures Nearer(x, y) || Nearer(y, x)
  {
    LexTotal(x.kind, y.kind);
  }

  lemma NearerTransitive(x: Scored, y: Scored, z: Scored)
    requires Nearer(x, y) && Nearer(y, z)
    ensures Nearer(x, z)
  {
    hide LexLeq;
    if x.dist == y.dist && y.dist == z.dist {
      LexTransitive(x.kind, y.kind, z.kind);
    }
  }

  method Rank(hits: seq<Scored>) returns (out: seq<Scored>)
    ensures Ranked(out) && Rearranged(out, hits)
  {
    hide Nearer;
    out := [];
    for i := 0 to |hits|
      invariant Ranked(out) && Rearranged(out, hits[..i])
    {
      var k := 0;
      while k < |out| && Nearer(out[k], hits[i])
        invariant 0 <= k <= |out| && forall j | 0 <= j < k :: Nearer(out[j], hits[i])
      {
        k := k + 1;
      }
      hide Ranked;
      RankedWith(out, hits[i], k);
      assert hits[..i + 1] == hits[..i] + [hits[i]];
      out := out[..k] + [hits[i]] + out[k..];
    }
    assert hits[..|hits|] == hits;
  }

  /** Any two rankings of the same entries are equal, so an unstable sort changes nothing. */
  lemma {:induction false} RankingIsUnique(a: seq<Scored>, b: seq<Scored>)
    requires Ranked(a) && Ranked(b) && Rearranged(a, b)
    ensures a == b
    decreases |a|
  {
    hide Nearer, Ranked, Rearranged;
    SameFirst(a, b);
    if a != [] {
      RankingIsUnique(a[1..], b[1..]);
      assert a == [a[0]] + a[1..] && b == [b[0]] + b[1..];
    }
  }

  lemma SameFirst(a: seq<Scored>, b: seq<Scored>)
    requires Ranked(a) && Ranked(b) && Rearranged(a, b)
    ensures |a| == |b|
    ensures a != [] ==> a[0] == b[0] && Ranked(a[1..]) && Ranked(b[1..]) && Rearranged(a[1..], b[1..])
  {
    hide Nearer;
    assert |multiset(a)| == |a| && |multiset(b)| == |b|;
    if a != [] {
      assert a[0] in multiset(a) && b[0] in multiset(b);
      FirstIsLeast(a, b[0]);
      FirstIsLeast(b, a[0]);
      NearerAntisymmetric(a[0], b[0]);
      TailMultiset(a);
      TailMultiset(b);
    }
  }

  lemma TailMultiset(s: seq<Scored>)
    requires s != []
    ensures multiset(s[1..]) == multiset(s) - multiset{s[0]}
  {
    assert s == [s[0]] + s[1..];
  }

  lemma FirstIsLeast(s: seq<Scored>, x: Scored)
    requires Ranked(s) && x in multiset(s)
    ensures s != [] && (s[0] == x || Nearer(s[0], x))
  {
    assert x in s;
  }

  lemma NearerAntisymmetric(x: Scored, y: Scored)
    requires (x == y || Nearer(x, y)) && (y == x || Nearer(y, x))
    ensures x == y
  {
    hide LexLeq;
    if x != y {
      LexAntisymmetric(x.kind, y.kind);
    }
  }

  function Kinds(s: seq<Scored>): seq<bytes> {
    seq(|s|, i requires 0 <= i < |s| => s[i].kind)
  }

  function FirstThree(s: seq<Scored>): seq<Scored> {
    if |s| > MAX_SUGGESTIONS then s[..MAX_SUGGESTIONS] else s
  }

  /** Up to three entries within three edits, nearest first, ties by name. */
  method ClosestVocabulary(name: bytes, vocabulary: seq<bytes>) returns (out: seq<bytes>, ghost ranked: seq<Scored>)
    ensures Ranked(ranked) && Rearranged(ranked, Candidates(name, vocabulary))
    ensures out == Kinds(FirstThree(ranked))
    ensures |out| <= MAX_SUGGESTIONS && forall k | k in out :: k in vocabulary && Lev(name, k) <= MAX_DISTANCE
    ensures forall v | v in vocabulary && Lev(name, v) <= MAX_DISTANCE :: v in out || |out| == MAX_SUGGESTIONS
  {
    hide Lev, Nearer, Ranked;
    var hits: seq<Scored> := [];
    for i := 0 to |vocabulary|
      invariant hits == Candidates(name, vocabulary[..i])
    {
      var candidate := vocabulary[i];
      assert vocabulary[..i + 1][..i] == vocabulary[..i];
      LengthBound(name, candidate);
      var d := |candidate| - |name|;
      if d > MAX_DISTANCE || d < -MAX_DISTANCE {
        continue;
      }
      var dist := EditDistance(name, candidate);
      if dist > MAX_DISTANCE {
        continue;
      }
      hits := hits + [Scored(candidate, dist)];
    }
    assert vocabulary[..|vocabulary|] == vocabulary;
    var sorted := Rank(hits);
    ranked := sorted;
    hits := FirstThree(sorted);
    out := [];
    for i := 0 to |hits|
      invariant out == Kinds(hits)[..i]
    {
      out := out + [hits[i].kind];
    }
    forall k | k in out ensures k in vocabulary && Lev(name, k) <= MAX_DISTANCE {
      SuggestionIsNear(name, vocabulary, ranked, k);
    }
    forall v | v in vocabulary && Lev(name, v) <= MAX_DISTANCE ensures v in out || |out| == MAX_SUGGESTIONS {
      LevIsReached(name, v);
      UnsuggestedRanksBehind(name, vocabulary, ranked, v, Lev(name, v));
    }
  }

  /** What is suggested is a vocabulary entry that at most three edits make of the name. */
  lemma SuggestionIsNear(name: bytes, vocabulary: seq<bytes>, ranked: seq<Scored>, k: bytes)
    requires Rearranged(ranked, Candidates(name, vocabulary)) && k in Kinds(FirstThree(ranked))
    ensures k in vocabulary && Lev(name, k) <= MAX_DISTANCE && Reaches(name, k, Lev(name, k))
  {
    hide Lev, Reaches, Nearer;
    var i :| 0 <= i < |FirstThree(ranked)| && Kinds(FirstThree(ranked))[i] == k;
    assert ranked[i] in multiset(ranked);
    assert ranked[i] in multiset(Candidates(name, vocabulary));
    CandidatesAre(name, vocabulary, ranked[i]);
    LevIsReached(name, k);
  }

  /** An entry that three edits or fewer make of the name is suggested, or three entries rank before it. */
  lemma UnsuggestedRanksBehind(name: bytes, vocabulary: seq<bytes>, ranked: seq<Scored>, v: bytes, n: nat)
    requires Ranked(ranked) && Rearranged(ranked, Candidates(name, vocabulary))
    requires v in vocabulary && n <= MAX_DISTANCE && Reaches(name, v, n)
    ensures v in Kinds(FirstThree(ranked))
            || (|FirstThree(ranked)| == MAX_SUGGESTIONS
                && forall i | 0 <= i < MAX_SUGGESTIONS :: Nearer(FirstThree(ranked)[i], Scored(v, Lev(name, v))))
  {
    hide Lev, Reaches, Nearer;
    LevIsMinimal(name, v, n);
    var x := Scored(v, Lev(name, v));
    CandidatesAre(name, vocabulary, x);
    assert x in multiset(Candidates(name, vocabulary));
    hide Candidates, Rearranged;
    assert x in multiset(ranked);
    var j :| 0 <= j < |ranked| && ranked[j] == x;
    if j < |FirstThree(ranked)| {
      assert Kinds(FirstThree(ranked))[j] == v;
    }
  }

  lemma {:induction false} CandidatesAre(name: bytes, vocabulary: seq<bytes>, x: Scored)
    ensures x in Candidates(name, vocabulary) <==> x.kind in vocabulary && x.dist == Lev(name, x.kind) <= MAX_DISTANCE
    decreases |vocabulary|
  {
    hide Lev;
    if vocabulary != [] {
      CandidatesAre(name, vocabulary[..|vocabulary| - 1], x);
    }
  }
}
