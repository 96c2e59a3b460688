/**
 The matches of one file. Every compiled variant is tried against one parse; a variant with a root query
 visits the nodes its query yields, all the others share one walk. Matches of the same outer span are
 collapsed into one, stamped by the lowest variant that found it. Counting runs the same trials and
 keeps only the span and the kind.
 */
module Collect {
  import opened Outcomes
  import opened SyntaxTree

  /** What a file's result set reads of a match: its "match" capture's span, the compiled kind, the rest. */
  datatype FileMatch = FileMatch(path: string, span: Range, kind: string, body: string)

  /** What counting keeps of a match. */
  datatype Light = Light(span: Range, kind: string)

  /** A match, its outer span and the variant that found it. */
  datatype Tagged<M> = Tagged(hit: M, span: Range, variant: nat)

  /** Trying one variant at one node. */
  datatype Attempt<M> = Failed(error: string) | Missed | Matched(m: M, span: Range)

  /** The nodes a variant's own query yields, or None when it is driven by the shared walk. */
  datatype Variant = Variant(query: Option<seq<nat>>)

  // ----- collapsing equal spans -----

  function Find<M>(s: seq<Tagged<M>>, span: Range): (i: nat)
    ensures i <= |s| && (i < |s| ==> s[i].span == span)
    ensures forall j | 0 <= j < i :: s[j].span != span
  {
    if s == [] then 0 else if s[0].span == span then 0 else 1 + Find(s[1..], span)
  }

  /** A new span goes last; a lower variant replaces what a higher one found, in place. */
  function Absorbed<M>(s: seq<Tagged<M>>, e: Tagged<M>): seq<Tagged<M>> {
    var i := Find(s, e.span);
    if i == |s| then s + [e] else if e.variant < s[i].variant then s[i := e] else s
  }

  function Survivors<M>(es: seq<Tagged<M>>): seq<Tagged<M>> {
    if es == [] then [] else Absorbed(Survivors(es[..|es| - 1]), es[|es| - 1])
  }

  ghost predicate DistinctSpans<M>(s: seq<Tagged<M>>) {
    forall i, j | 0 <= i < j < |s| :: s[i].span != s[j].span
  }

  /** The entry for a span is there and is stamped by this variant or a lower one. */
  predicate Stamped<M>(s: seq<Tagged<M>>, span: Range, variant: nat) {
    Find(s, span) < |s| && s[Find(s, span)].variant <= variant
  }

  /** One entry for every span found, and no variant lower than the entry's found that span. */
  ghost predicate Collapses<M>(s: seq<Tagged<M>>, es: seq<Tagged<M>>) {
    && DistinctSpans(s)
    && (forall i | 0 <= i < |s| :: s[i] in es)
    && (forall k | 0 <= k < |es| :: Stamped(s, es[k].span, es[k].variant))
  }

  lemma SurvivorsCollapse<M>(es: seq<Tagged<M>>)
    ensures Collapses(Survivors(es), es)
    decreases |es|
  {
    hide Collapses, Absorbed;
    if es != [] {
      var n := |es| - 1;
      SurvivorsCollapse(es[..n]);
      assert es == es[..n] + [es[n]];
      AbsorbedCollapses(Survivors(es[..n]), es[..n], es[n]);
    } else {
      NothingCollapses(es);
    }
  }

  lemma NothingCollapses<M>(es: seq<Tagged<M>>)
    requires es == []
    ensures Collapses([], es)
  {
  }

  lemma FindIs<M>(s: seq<Tagged<M>>, span: Range, i: nat)
    requires i < |s| && s[i].span == span && forall j | 0 <= j < i :: s[j].span != span
    ensures Find(s, span) == i
  {
  }

  lemma StampedStill<M>(s: seq<Tagged<M>>, e: Tagged<M>, span: Range, variant: nat)
    requires Stamped(s, span, variant)
    ensures Stamped(Absorbed(s, e), span, variant)
  {
    var i := Find(s, span);
    var t := Absorbed(s, e);
    forall j | 0 <= j < i ensures t[j].span == s[j].span {
    }
    FindIs(t, span, i);
  }

  lemma StampedNow<M>(s: seq<Tagged<M>>, e: Tagged<M>)
    ensures Stamped(Absorbed(s, e), e.span, e.variant)
  {
    var i := Find(s, e.span);
    FindIs(Absorbed(s, e), e.span, i);
  }

  lemma AbsorbedCollapses<M>(s: seq<Tagged<M>>, es: seq<Tagged<M>>, e: Tagged<M>)
    requires Collapses(s, es)
    ensures Collapses(Absorbed(s, e), es + [e])
  {
    var t, all := Absorbed(s, e), es + [e];
    assert all[|es|] == e && forall k | 0 <= k < |es| :: all[k] == es[k];
    forall i | 0 <= i < |t| ensures t[i] in all {
      assert t[i] == e || (i < |s| && t[i] == s[i]);
    }
    hide Find;
    forall k | 0 <= k < |all| ensures Stamped(t, all[k].span, all[k].variant) {
      if k < |es| {
        StampedStill(s, e, es[k].span, es[k].variant);
      } else {
        StampedNow(s, e);
      }
    }
  }

  /** An entry and the entry another order of the trials leaves for its span carry the same variant. */
  lemma SameStamp<M>(s: seq<Tagged<M>>, t: seq<Tagged<M>>, es: seq<Tagged<M>>, i: nat)
    requires Collapses(s, es) && Collapses(t, es) && i < |s|
    ensures var j := Find(t, s[i].span); j < |t| && t[j].span == s[i].span && t[j].variant == s[i].variant
  {
    var k :| 0 <= k < |es| && es[k] == s[i];
    assert Stamped(t, es[k].span, es[k].variant);
    var j := Find(t, s[i].span);
    assert t[j] in es;
    var l :| 0 <= l < |es| && es[l] == t[j];
    assert Stamped(s, es[l].span, es[l].variant);
    FindDistinct(s, i);
  }

  lemma FindDistinct<M>(s: seq<Tagged<M>>, i: nat)
    requires DistinctSpans(s) && i < |s|
    ensures Find(s, s[i].span) == i
  {
    FindIs(s, s[i].span, i);
  }

  lemma CollapsesReordered<M>(s: seq<Tagged<M>>, es: seq<Tagged<M>>, es': seq<Tagged<M>>)
    requires Collapses(s, es') && multiset(es) == multiset(es')
    ensures Collapses(s, es)
  {
    forall i | 0 <= i < |s| ensures s[i] in es {
      assert s[i] in multiset(es');
    }
    forall k | 0 <= k < |es| ensures Stamped(s, es[k].span, es[k].variant) {
      assert es[k] in multiset(es');
      var l :| 0 <= l < |es'| && es'[l] == es[k];
      assert Stamped(s, es'[l].span, es'[l].variant);
    }
  }

  /** Which spans survive, and which variant stamps each, does not depend on the order of the trials. */
  lemma OrderDoesNotMatter<M>(es: seq<Tagged<M>>, es': seq<Tagged<M>>, i: nat)
    requires multiset(es) == multiset(es') && i < |Survivors(es)|
    ensures var x := Survivors(es)[i]; exists j | 0 <= j < |Survivors(es')| ::
              Survivors(es')[j].span == x.span && Survivors(es')[j].variant == x.variant
  {
    SurvivorsCollapse(es);
    SurvivorsCollapse(es');
    CollapsesReordered(Survivors(es'), es, es');
    hide Collapses, Survivors;
    SameStamp(Survivors(es), Survivors(es'), es, i);
  }

  // ----- the per-file result set -----

  datatype Slot = Slot(pos: nat, variant: nat)

  class ResultSet<M> {
    var out: seq<M>
    var seen: map<Range, Slot>
    ghost var survivors: seq<Tagged<M>>

    ghost predicate Valid()
      reads this
    {
      && |out| == |survivors| && (forall i | 0 <= i < |out| :: out[i] == survivors[i].hit)
      && (forall i | 0 <= i < |out| :: survivors[i].span in seen && seen[survivors[i].span] == Slot(i, survivors[i].variant))
      && (forall r | r in seen :: seen[r].pos < |out| && survivors[seen[r].pos].span == r)
    }

    constructor ()
      ensures Valid() && survivors == []
    {
      out, seen, survivors := [], map[], [];
    }

    method Absorb(e: Tagged<M>)
      requires Valid()
      modifies this
      ensures Valid() && survivors == Absorbed(old(survivors), e)
    {
      ghost var at := Find(survivors, e.span);
      if e.span in seen {
        var slot := seen[e.span];
        assert at == slot.pos;
        if e.variant < slot.variant {
          out := out[slot.pos := e.hit];
          seen := seen[e.span := Slot(slot.pos, e.variant)];
          survivors := survivors[slot.pos := e];
        }
        return;
      }
      assert at == |survivors|;
      seen := seen[e.span := Slot(|out|, e.variant)];
      out := out + [e.hit];
      survivors := survivors + [e];
    }
  }

  // ----- the trials -----

  function Join<M>(a: Result<seq<Tagged<M>>, string>, b: Result<seq<Tagged<M>>, string>)
    : Result<seq<Tagged<M>>, string>
  {
    if a.Err? then a else if b.Err? then b else Ok(a.value + b.value)
  }

  function One<M>(a: Attempt<M>, variant: nat): Result<seq<Tagged<M>>, string> {
    match a
    case Failed(e) => Err(e)
    case Missed => Ok([])
    case Matched(m, span) => Ok([Tagged(m, span, variant)])
  }

  /** A variant's own query, over the first `k` nodes it yields. */
  function QueryHits<M>(nodes: seq<nat>, k: nat, v: nat, attempt: (nat, nat) -> Attempt<M>)
    : Result<seq<Tagged<M>>, string>
    requires k <= |nodes|
  {
    if k == 0 then Ok([]) else Join(QueryHits(nodes, k - 1, v, attempt), One(attempt(v, nodes[k - 1]), v))
  }

  /** The first walk-driven variant from `v` on that does not miss at a node. */
  function FirstHit<M>(variants: seq<Variant>, n: nat, v: nat,
          attempt: (nat, nat) -> Attempt<M>): Result<seq<Tagged<M>>, string>
    requires v <= |variants|
    decreases |variants| - v
  {
    if v == |variants| then Ok([])
    else if variants[v].query.Some? || attempt(v, n).Missed? then FirstHit(variants, n, v + 1, attempt)
    else One(attempt(v, n), v)
  }

  /** The shared walk, over its first `k` nodes. */
  function WalkHits<M>(variants: seq<Variant>, walk: seq<nat>, k: nat,
          attempt: (nat, nat) -> Attempt<M>): Result<seq<Tagged<M>>, string>
    requires k <= |walk|
  {
    if k == 0 then Ok([]) else Join(WalkHits(variants, walk, k - 1, attempt), FirstHit(variants, walk[k - 1], 0, attempt))
  }

  predicate WalkBefore(variants: seq<Variant>, i: nat) {
    exists j | 0 <= j < i && j < |variants| :: variants[j].query.None?
  }

  /** What the `i`-th variant adds: its query's hits, or the shared walk's when it is the first without one. */
  function VariantHits<M>(variants: seq<Variant>, walk: seq<nat>, i: nat,
          attempt: (nat, nat) -> Attempt<M>): Result<seq<Tagged<M>>, string>
    requires i < |variants|
  {
    match variants[i].query
    case Some(nodes) => QueryHits(nodes, |nodes|, i, attempt)
    case None => if WalkBefore(variants, i) then Ok([]) else WalkHits(variants, walk, |walk|, attempt)
  }

  function Emitted<M>(variants: seq<Variant>, walk: seq<nat>, i: nat,
          attempt: (nat, nat) -> Attempt<M>): Result<seq<Tagged<M>>, string>
    requires i <= |variants|
  {
    if i == 0 then Ok([]) else Join(Emitted(variants, walk, i - 1, attempt), VariantHits(variants, walk, i - 1, attempt))
  }

  function MatchesOf<M>(s: seq<Tagged<M>>): seq<M> {
    seq(|s|, i requires 0 <= i < |s| => s[i].hit)
  }

  /** A file's deduplicated result set, or the first error met. */
  function Collected<M>(variants: seq<Variant>, walk: seq<nat>, attempt: (nat, nat) -> Attempt<M>)
    : Result<seq<M>, string>
  {
    match Emitted(variants, walk, |variants|, attempt)
    case Err(e) => Err(e)
    case Ok(es) => Ok(MatchesOf(Survivors(es)))
  }

  method CollectViaQuery<M>(nodes: seq<nat>, v: nat, attempt: (nat, nat) -> Attempt<M>)
    returns (r: Result<seq<Tagged<M>>, string>)
    ensures r == QueryHits(nodes, |nodes|, v, attempt)
  {
    var found: seq<Tagged<M>> := [];
    for k := 0 to |nodes|
      invariant QueryHits(nodes, k, v, attempt) == Ok(found)
    {
      var a := attempt(v, nodes[k]);
      if a.Failed? {
        QueryStops(nodes, k + 1, |nodes|, v, attempt);
        return Err(a.error);
      }
      if a.Matched? {
        found := found + [Tagged(a.m, a.span, v)];
      } else {
        assert found + [] == found;
      }
    }
    return Ok(found);
  }

  lemma QueryStops<M>(nodes: seq<nat>, j: nat, k: nat, v: nat, attempt: (nat, nat) -> Attempt<M>)
    requires j <= k <= |nodes| && QueryHits(nodes, j, v, attempt).Err?
    ensures QueryHits(nodes, k, v, attempt) == QueryHits(nodes, j, v, attempt)
    decreases k
  {
    if j < k {
      QueryStops(nodes, j, k - 1, v, attempt);
    }
  }

  method CollectViaWalk<M>(variants: seq<Variant>, walk: seq<nat>, attempt: (nat, nat) -> Attempt<M>)
    returns (r: Result<seq<Tagged<M>>, string>)
    ensures r == WalkHits(variants, walk, |walk|, attempt)
  {
    var found: seq<Tagged<M>> := [];
    for k := 0 to |walk|
      invariant WalkHits(variants, walk, k, attempt) == Ok(found)
    {
      hide FirstHit;
      var hit := TryVariants(variants, walk[k], attempt);
      if hit.Err? {
        WalkStops(variants, walk, k + 1, |walk|, attempt);
        return hit;
      }
      found := found + hit.value;
    }
    return Ok(found);
  }

  method TryVariants<M>(variants: seq<Variant>, n: nat, attempt: (nat, nat) -> Attempt<M>)
    returns (r: Result<seq<Tagged<M>>, string>)
    ensures r == FirstHit(variants, n, 0, attempt)
  {
    for v := 0 to |variants|
      invariant FirstHit(variants, n, 0, attempt) == FirstHit(variants, n, v, attempt)
    {
      if variants[v].query.Some? {
        continue;
      }
      var a := attempt(v, n);
      if a.Failed? {
        return Err(a.error);
      }
      if a.Matched? {
        return Ok([Tagged(a.m, a.span, v)]);
      }
    }
    return Ok([]);
  }

  lemma WalkStops<M>(variants: seq<Variant>, walk: seq<nat>, j: nat, k: nat,
          attempt: (nat, nat) -> Attempt<M>)
    requires j <= k <= |walk| && WalkHits(variants, walk, j, attempt).Err?
    ensures WalkHits(variants, walk, k, attempt) == WalkHits(variants, walk, j, attempt)
    decreases k
  {
    hide FirstHit;
    if j < k {
      WalkStops(variants, walk, j, k - 1, attempt);
    }
  }

  lemma EmittedStops<M>(variants: seq<Variant>, walk: seq<nat>, j: nat, k: nat,
          attempt: (nat, nat) -> Attempt<M>)
    requires j <= k <= |variants| && Emitted(variants, walk, j, attempt).Err?
    ensures Emitted(variants, walk, k, attempt) == Emitted(variants, walk, j, attempt)
    decreases k
  {
    hide VariantHits;
    if j < k {
      EmittedStops(variants, walk, j, k - 1, attempt);
    }
  }

  lemma NothingSurvives<M>()
    ensures Survivors<M>([]) == []
  {
  }

  method AbsorbAll<M>(results: ResultSet<M>, ghost before: seq<Tagged<M>>, found: seq<Tagged<M>>)
    requires results.Valid() && results.survivors == Survivors(before)
    modifies results
    ensures results.Valid() && results.survivors == Survivors(before + found)
  {
    hide Survivors, Absorbed;
    assert before + found[..0] == before;
    for k := 0 to |found|
      invariant results.Valid()
      invariant results.survivors == Survivors(before + found[..k])
    {
      SurvivorsStep(before, found, k);
      results.Absorb(found[k]);
    }
    assert found[..|found|] == found;
  }

  /** Runs every variant against one parse. Matching builds full matches with it, counting light ones. */
  method CollectFile<M>(variants: seq<Variant>, walk: seq<nat>, attempt: (nat, nat) -> Attempt<M>)
    returns (r: Result<seq<M>, string>)
    ensures r == Collected(variants, walk, attempt)
  {
    hide QueryHits, WalkHits, Survivors;
    NothingSurvives<M>();
    var results := new ResultSet<M>();
    var walkDone := false;
    for i := 0 to |variants|
      invariant results.Valid() && fresh(results)
      invariant walkDone <==> WalkBefore(variants, i)
      invariant Emitted(variants, walk, i, attempt).Ok?
      invariant results.survivors == Survivors(Emitted(variants, walk, i, attempt).value)
    {
      var found: Result<seq<Tagged<M>>, string> := Ok([]);
      if variants[i].query.Some? {
        found := CollectViaQuery(variants[i].query.value, i, attempt);
      } else if !walkDone {
        walkDone := true;
        found := CollectViaWalk(variants, walk, attempt);
      }
      assert found == VariantHits(variants, walk, i, attempt);
      if found.Err? {
        EmittedStops(variants, walk, i + 1, |variants|, attempt);
        return Err(found.error);
      }
      AbsorbAll(results, Emitted(variants, walk, i, attempt).value, found.value);
    }
    assert MatchesOf(results.survivors) == results.out;
    return Ok(results.out);
  }

  lemma SurvivorsStep<M>(before: seq<Tagged<M>>, found: seq<Tagged<M>>, k: nat)
    requires k < |found|
    ensures Survivors(before + found[..k + 1]) == Absorbed(Survivors(before + found[..k]), found[k])
  {
    var es := before + found[..k + 1];
    assert es[..|es| - 1] == before + found[..k] && es[|es| - 1] == found[k];
  }

  // ----- counting finds what matching finds -----

  function LightOf(m: FileMatch): Light {
    Light(m.span, m.kind)
  }

  function LightAttempt(a: Attempt<FileMatch>): Attempt<Light> {
    match a
    case Failed(e) => Failed(e)
    case Missed => Missed
    case Matched(m, span) => Matched(LightOf(m), span)
  }

  /** The light trial misses, fails and hits where the other does, with the same span and kind. */
  ghost predicate Mirrors(attempt: (nat, nat) -> Attempt<FileMatch>, light: (nat, nat) -> Attempt<Light>) {
    forall v, n :: light(v, n) == LightAttempt(attempt(v, n))
  }

  function LightTags(s: seq<Tagged<FileMatch>>): seq<Tagged<Light>> {
    seq(|s|, i requires 0 <= i < |s| => Tagged(LightOf(s[i].hit), s[i].span, s[i].variant))
  }

  function LightResult(r: Result<seq<Tagged<FileMatch>>, string>): Result<seq<Tagged<Light>>, string> {
    match r
    case Err(e) => Err(e)
    case Ok(s) => Ok(LightTags(s))
  }

  lemma LightJoin(a: Result<seq<Tagged<FileMatch>>, string>, b: Result<seq<Tagged<FileMatch>>, string>)
    ensures LightResult(Join(a, b)) == Join(LightResult(a), LightResult(b))
  {
    if a.Ok? && b.Ok? {
      assert LightTags(a.value + b.value) == LightTags(a.value) + LightTags(b.value);
    }
  }

  lemma LightOne(a: Attempt<FileMatch>, v: nat)
    ensures LightResult(One(a, v)) == One(LightAttempt(a), v)
  {
    LightNothing();
    if a.Matched? {
      assert LightTags([Tagged(a.m, a.span, v)]) == [Tagged(LightOf(a.m), a.span, v)];
    }
  }

  lemma {:induction false} LightQuery(nodes: seq<nat>, k: nat, v: nat, attempt: (nat, nat) -> Attempt<FileMatch>,
          light: (nat, nat) -> Attempt<Light>)
    requires Mirrors(attempt, light)
    requires k <= |nodes|
    ensures LightResult(QueryHits(nodes, k, v, attempt)) == QueryHits(nodes, k, v, light)
    decreases k
  {
    hide Join, One, LightResult, LightAttempt;
    if k > 0 {
      LightQuery(nodes, k - 1, v, attempt, light);
      LightJoin(QueryHits(nodes, k - 1, v, attempt), One(attempt(v, nodes[k - 1]), v));
      LightOne(attempt(v, nodes[k - 1]), v);
    } else {
      LightNothing();
    }
  }

  lemma LightNothing()
    ensures LightResult(Ok([])) == Ok([])
  {
    var none: seq<Tagged<FileMatch>> := [];
    assert LightTags(none) == [];
  }

  lemma {:induction false} LightFirst(variants: seq<Variant>, n: nat, v: nat, attempt: (nat, nat) -> Attempt<FileMatch>,
          light: (nat, nat) -> Attempt<Light>)
    requires Mirrors(attempt, light)
    requires v <= |variants|
    ensures LightResult(FirstHit(variants, n, v, attempt)) == FirstHit(variants, n, v, light)
    decreases |variants| - v
  {
    LightNothing();
    if v < |variants| {
      LightFirst(variants, n, v + 1, attempt, light);
      LightOne(attempt(v, n), v);
    }
  }

  lemma {:induction false} LightWalk(variants: seq<Variant>, walk: seq<nat>, k: nat,
          attempt: (nat, nat) -> Attempt<FileMatch>,
          light: (nat, nat) -> Attempt<Light>)
    requires Mirrors(attempt, light)
    requires k <= |walk|
    ensures LightResult(WalkHits(variants, walk, k, attempt)) == WalkHits(variants, walk, k, light)
    decreases k
  {
    hide Join, LightResult, FirstHit;
    LightNothing();
    if k > 0 {
      LightWalk(variants, walk, k - 1, attempt, light);
      LightFirst(variants, walk[k - 1], 0, attempt, light);
      LightJoin(WalkHits(variants, walk, k - 1, attempt), FirstHit(variants, walk[k - 1], 0, attempt));
    }
  }

  lemma {:induction false} LightEmitted(variants: seq<Variant>, walk: seq<nat>, i: nat,
          attempt: (nat, nat) -> Attempt<FileMatch>,
          light: (nat, nat) -> Attempt<Light>)
    requires Mirrors(attempt, light)
    requires i <= |variants|
    ensures LightResult(Emitted(variants, walk, i, attempt)) == Emitted(variants, walk, i, light)
    decreases i
  {
    hide Join, LightResult, FirstHit, QueryHits, WalkHits;
    LightNothing();
    if i > 0 {
      LightEmitted(variants, walk, i - 1, attempt, light);
      if variants[i - 1].query.Some? {
        LightQuery(variants[i - 1].query.value, |variants[i - 1].query.value|, i - 1, attempt, light);
      } else {
        LightWalk(variants, walk, |walk|, attempt, light);
      }
      LightJoin(Emitted(variants, walk, i - 1, attempt), VariantHits(variants, walk, i - 1, attempt));
    }
  }

  lemma LightFind(s: seq<Tagged<FileMatch>>, span: Range)
    ensures Find(LightTags(s), span) == Find(s, span)
  {
    assert forall k | 0 <= k < |s| :: LightTags(s)[k].span == s[k].span;
    if Find(s, span) < |s| {
      FindIs(LightTags(s), span, Find(s, span));
    }
  }

  lemma {:induction false} LightSurvivors(es: seq<Tagged<FileMatch>>)
    ensures LightTags(Survivors(es)) == Survivors(LightTags(es))
    decreases |es|
  {
    hide Find;
    if es != [] {
      var n := |es| - 1;
      LightSurvivors(es[..n]);
      assert LightTags(es)[..n] == LightTags(es[..n]);
      LightFind(Survivors(es[..n]), es[n].span);
      LightAbsorbed(Survivors(es[..n]), es[n]);
    }
  }

  lemma LightAbsorbed(s: seq<Tagged<FileMatch>>, e: Tagged<FileMatch>)
    ensures LightTags(Absorbed(s, e)) == Absorbed(LightTags(s), Tagged(LightOf(e.hit), e.span, e.variant))
  {
    LightFind(s, e.span);
    hide Find;
  }

  lemma MirrorsCollect(variants: seq<Variant>, walk: seq<nat>, attempt: (nat, nat) -> Attempt<FileMatch>,
          light: (nat, nat) -> Attempt<Light>)
    requires Mirrors(attempt, light)
    ensures Collected(variants, walk, light) == LightsOf(Collected(variants, walk, attempt))
  {
    LightEmitted(variants, walk, |variants|, attempt, light);
    hide Emitted, Mirrors;
    var es := Emitted(variants, walk, |variants|, attempt);
    if es.Ok? {
      LightSurvivors(es.value);
      hide Survivors;
      var s := Survivors(es.value);
      assert MatchesOf(LightTags(s)) == Lights(MatchesOf(s));
    }
  }

  function Lights(ms: seq<FileMatch>): seq<Light> {
    seq(|ms|, i requires 0 <= i < |ms| => LightOf(ms[i]))
  }

  function LightsOf(r: Result<seq<FileMatch>, string>): Result<seq<Light>, string> {
    match r
    case Err(e) => Err(e)
    case Ok(ms) => Ok(Lights(ms))
  }

  /** One try of a variant at a node, structure and where-tree, the same in both modes. */
  datatype Trial = Faulted(error: string) | Unmatched | Hit(m: FileMatch)

  /** Matching keys a hit by its "match" capture. */
  function Matching(trial: (nat, nat) -> Trial): (nat, nat) -> Attempt<FileMatch> {
    (v: nat, n: nat) =>
      match trial(v, n)
      case Faulted(e) => Failed(e)
      case Unmatched => Missed
      case Hit(m) => Matched(m, m.span)
  }

  /** Counting keys it by the node tried, whose span is `at`. */
  function Counting(trial: (nat, nat) -> Trial, at: nat -> Range): (nat, nat) -> Attempt<Light> {
    (v: nat, n: nat) =>
      match trial(v, n)
      case Faulted(e) => Failed(e)
      case Unmatched => Missed
      case Hit(m) => Matched(Light(at(n), m.kind), at(n))
  }

  /** A hit's "match" capture is the node tried: no handle of the where-tree has taken the name. */
  ghost predicate NodeKept(trial: (nat, nat) -> Trial, at: nat -> Range) {
    forall v, n :: trial(v, n).Hit? ==> trial(v, n).m.span == at(n)
  }

  /** Counting a file yields the spans and kinds of exactly the matches matching it yields, in order. */
  ghost predicate CountIsMatch(variants: seq<Variant>, walk: seq<nat>, trial: (nat, nat) -> Trial, at: nat -> Range) {
    Collected(variants, walk, Counting(trial, at)) == LightsOf(Collected(variants, walk, Matching(trial)))
  }

  lemma CountsAreMatches(variants: seq<Variant>, walk: seq<nat>, trial: (nat, nat) -> Trial, at: nat -> Range)
    requires NodeKept(trial, at)
    ensures CountIsMatch(variants, walk, trial, at)
  {
    hide Collected;
    assert Mirrors(Matching(trial), Counting(trial, at));
    MirrorsCollect(variants, walk, Matching(trial), Counting(trial, at));
  }

  /** Counting agrees with matching on every file exactly when every hit keeps its node. */
  lemma CountsAreMatchesIff(trial: (nat, nat) -> Trial, at: nat -> Range)
    ensures (forall variants, walk :: CountIsMatch(variants, walk, trial, at)) <==> NodeKept(trial, at)
  {
    hide CountIsMatch;
    if NodeKept(trial, at) {
      forall variants, walk ensures CountIsMatch(variants, walk, trial, at) {
        CountsAreMatches(variants, walk, trial, at);
      }
    } else {
      var v, n :| trial(v, n).Hit? && trial(v, n).m.span != at(n);
      SoleHit(trial, at, v, n);
    }
  }

  /** Only variant `v` visits anything, and only the node `n`. */
  function OneNode(v: nat, n: nat): seq<Variant> {
    seq(v, _ => Variant(Some([]))) + [Variant(Some([n]))]
  }

  lemma SoleHit(trial: (nat, nat) -> Trial, at: nat -> Range, v: nat, n: nat)
    requires trial(v, n).Hit? && trial(v, n).m.span != at(n)
    ensures !CountIsMatch(OneNode(v, n), [], trial, at)
  {
    var m := trial(v, n).m;
    SoleEmitted(v, n, Matching(trial), m, m.span);
    SoleEmitted(v, n, Counting(trial, at), Light(at(n), m.kind), at(n));
    hide Emitted;
    SoleSurvives(Tagged(m, m.span, v));
    SoleSurvives(Tagged(Light(at(n), m.kind), at(n), v));
    assert Lights([m])[0] == LightOf(m);
  }

  lemma SoleSurvives<M>(e: Tagged<M>)
    ensures MatchesOf(Survivors([e])) == [e.hit]
  {
    assert [e][..0] == [];
    assert Survivors([e]) == Absorbed([], e);
  }

  lemma SoleEmitted<M>(v: nat, n: nat, attempt: (nat, nat) -> Attempt<M>, m: M, span: Range)
    requires attempt(v, n) == Matched(m, span)
    ensures Emitted(OneNode(v, n), [], v + 1, attempt) == Ok([Tagged(m, span, v)])
  {
    hide Emitted;
    NothingBefore(v, n, v, attempt);
    EmittedStep(OneNode(v, n), [], v + 1, attempt);
    assert QueryHits([n], 0, v, attempt) == Ok([]);
    assert [] + [Tagged(m, span, v)] == [Tagged(m, span, v)];
    assert QueryHits([n], 1, v, attempt) == Ok([Tagged(m, span, v)]);
  }

  lemma NothingBefore<M>(v: nat, n: nat, i: nat, attempt: (nat, nat) -> Attempt<M>)
    requires i <= v
    ensures Emitted(OneNode(v, n), [], i, attempt) == Ok([])
  {
    if i > 0 {
      NothingBefore(v, n, i - 1, attempt);
      EmittedStep(OneNode(v, n), [], i, attempt);
      hide Emitted;
      var none: seq<Tagged<M>> := [];
      assert none + none == none;
      assert QueryHits([], 0, i - 1, attempt) == Ok([]);
    }
  }

  lemma EmittedStep<M>(variants: seq<Variant>, walk: seq<nat>, i: nat, attempt: (nat, nat) -> Attempt<M>)
    requires 0 < i <= |variants|
    ensures Emitted(variants, walk, i, attempt)
         == Join(Emitted(variants, walk, i - 1, attempt), VariantHits(variants, walk, i - 1, attempt))
  {
    hide Join, VariantHits;
  }

  /** Two nodes whose matches both call a common ancestor "match": matching collapses them, counting does not. */
  lemma MatchHandleCollapses(trial: (nat, nat) -> Trial, at: nat -> Range, a: FileMatch, b: FileMatch)
    requires trial(0, 0) == Hit(a) && trial(0, 1) == Hit(b) && a.span == b.span && at(0) != at(1)
    ensures Collected([Variant(Some([0, 1]))], [], Matching(trial)) == Ok([a])
    ensures Collected([Variant(Some([0, 1]))], [], Counting(trial, at)) == Ok([Light(at(0), a.kind), Light(at(1), b.kind)])
  {
    TwoHits(Matching(trial), a, a.span, b, b.span);
    TwoHits(Counting(trial, at), Light(at(0), a.kind), at(0), Light(at(1), b.kind), at(1));
  }

  lemma TwoHits<M>(attempt: (nat, nat) -> Attempt<M>, a: M, s: Range, b: M, t: Range)
    requires attempt(0, 0) == Matched(a, s) && attempt(0, 1) == Matched(b, t)
    ensures Collected([Variant(Some([0, 1]))], [], attempt) == Ok(if s == t then [a] else [a, b])
  {
    var vs, x, y := [Variant(Some([0, 1]))], Tagged(a, s, 0), Tagged(b, t, 0);
    TwoEmitted(attempt, a, s, b, t);
    SurvivorsLast([], x);
    SurvivorsLast([x], y);
    assert [] + [x] == [x] && [x] + [y] == [x, y];
    hide Survivors, Emitted;
    TwoAbsorbed(x, y);
    var kept := if s == t then [x] else [x, y];
    assert Survivors([x, y]) == kept;
    assert MatchesOf(kept) == if s == t then [a] else [a, b];
  }

  lemma TwoEmitted<M>(attempt: (nat, nat) -> Attempt<M>, a: M, s: Range, b: M, t: Range)
    requires attempt(0, 0) == Matched(a, s) && attempt(0, 1) == Matched(b, t)
    ensures Emitted([Variant(Some([0, 1]))], [], 1, attempt) == Ok([Tagged(a, s, 0), Tagged(b, t, 0)])
  {
    var x, y := Tagged(a, s, 0), Tagged(b, t, 0);
    assert QueryHits([0, 1], 0, 0, attempt) == Ok([]);
    assert QueryHits([0, 1], 1, 0, attempt) == Ok([x]) by { assert [] + [x] == [x]; }
    assert QueryHits([0, 1], 2, 0, attempt) == Ok([x, y]) by { assert [x] + [y] == [x, y]; }
    hide QueryHits;
    EmittedStep([Variant(Some([0, 1]))], [], 1, attempt);
    assert [] + [x, y] == [x, y];
  }

  lemma TwoAbsorbed<M>(x: Tagged<M>, y: Tagged<M>)
    requires x.variant == y.variant
    ensures Absorbed([], x) == [x] && Absorbed([x], y) == if x.span == y.span then [x] else [x, y]
  {
    assert [x][1..] == [];
  }

  lemma SurvivorsLast<M>(es: seq<Tagged<M>>, e: Tagged<M>)
    ensures Survivors(es + [e]) == Absorbed(Survivors(es), e)
  {
    hide Absorbed;
    assert (es + [e])[..|es|] == es;
  }
}
