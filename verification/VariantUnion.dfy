/**
 The union compile. Every wrapper of the language is tried; those that host the fragment become variants,
 equal ones merged; the member readings of keywords are set aside, and a pin keeps the variants of one
 context. Parsed trees are resources: each is owned by exactly one returned variant or closed exactly once.
 */
module VariantUnion {
  import opened Outcomes

  datatype Wrapper = Wrapper(name: string, context: string)

  /** What compiling the fragment under one wrapper comes to; `partial` says that a parse which failed still
      returned a tree, and `key` is what the dedupe compares. */
  datatype Attempt = Unparsed(reason: string, partial: bool)
                   | Unhosted(reason: string)
                   | Faulty(error: string)
                   | Hosted(key: string)

  datatype Variant = Variant(tree: nat, key: string, contexts: seq<string>, wrappers: seq<string>)

  datatype CompileError = NoWrappers | Fault(e: string) | OpaquePlaceholder
                        | NothingCompiled(tried: seq<string>, rejects: seq<string>, produced: seq<string>)

  const MEMBER := "member"

  /** The parser's trees. A handle is never given out twice, and only an open tree can be closed. */
  class Trees {
    var next: nat
    ghost var open: set<nat>

    ghost predicate Valid()
      reads this
    {
      forall t | t in open :: t < next
    }

    constructor ()
      ensures Valid() && open == {}
    {
      next, open := 0, {};
    }

    method Parse() returns (t: nat)
      requires Valid()
      modifies this
      ensures Valid() && t !in old(open) && open == old(open) + {t} && old(next) <= t < next
    {
      t := next;
      next := next + 1;
      open := open + {t};
    }

    method Close(t: nat)
      requires Valid() && t in open
      modifies this
      ensures Valid() && open == old(open) - {t} && next == old(next)
    {
      open := open - {t};
    }
  }

  // ----- ownership -----

  function Handles(vs: seq<Variant>): set<nat> {
    set v | v in vs :: v.tree
  }

  predicate DistinctTrees(vs: seq<Variant>) {
    forall i, j | 0 <= i < j < |vs| :: vs[i].tree != vs[j].tree
  }

  /** The variants own open trees of their own, apart from what was open before. */
  ghost predicate Owns(trees: Trees, before: set<nat>, vs: seq<Variant>)
    reads trees
  {
    && trees.Valid() && DistinctTrees(vs) && Handles(vs) !! before
    && trees.open == before + Handles(vs)
  }

  lemma HandlesSplit(vs: seq<Variant>, i: nat)
    requires i < |vs| && DistinctTrees(vs)
    ensures Handles(vs[i..]) == {vs[i].tree} + Handles(vs[i + 1..]) && vs[i].tree !in Handles(vs[i + 1..])
  {
    assert vs[i..] == [vs[i]] + vs[i + 1..];
  }

  /** Releases every tree of a candidate set. */
  method CloseVariants(trees: Trees, vs: seq<Variant>, ghost before: set<nat>)
    requires Owns(trees, before, vs)
    modifies trees
    ensures trees.Valid() && trees.open == before
  {
    assert vs[0..] == vs;
    for i := 0 to |vs|
      invariant trees.Valid() && trees.open == before + Handles(vs[i..])
    {
      HandlesSplit(vs, i);
      trees.Close(vs[i].tree);
    }
  }

  // ----- trying the wrappers -----

  /** One wrapper and what it came to. */
  datatype Trial = Trial(wrapper: Wrapper, attempt: Attempt)

  function Names(ts: seq<Trial>): seq<string> {
    seq(|ts|, i requires 0 <= i < |ts| => ts[i].wrapper.name)
  }

  /** The wrappers hosting the fragment with this key, in registry order. */
  function HostsOf(ts: seq<Trial>, key: string): seq<Wrapper> {
    if ts == [] then []
    else HostsOf(ts[..|ts| - 1], key) + if ts[|ts| - 1].attempt == Hosted(key) then [ts[|ts| - 1].wrapper] else []
  }

  function ReasonOf(a: Attempt): Option<string> {
    match a
    case Unparsed(reason, _) => Some(reason)
    case Unhosted(reason) => Some(reason)
    case _ => None
  }

  function Rejects(ts: seq<Trial>): seq<string> {
    if ts == [] then []
    else
      var t := ts[|ts| - 1];
      Rejects(ts[..|ts| - 1])
      + if ReasonOf(t.attempt).Some? then [t.wrapper.name + "[" + t.wrapper.context + "]: " + ReasonOf(t.attempt).value] else []
  }

  predicate Aligned(v: Variant, ws: seq<Wrapper>) {
    && |v.contexts| == |v.wrappers| == |ws|
    && forall j | 0 <= j < |ws| :: v.contexts[j] == ws[j].context && v.wrappers[j] == ws[j].name
  }

  /** The keys hosted, each where its first host stands. */
  function Keys(ts: seq<Trial>): seq<string> {
    if ts == [] then []
    else
      var before, a := Keys(ts[..|ts| - 1]), ts[|ts| - 1].attempt;
      if a.Hosted? && a.key !in before then before + [a.key] else before
  }

  function KeyList(vs: seq<Variant>): seq<string> {
    seq(|vs|, i requires 0 <= i < |vs| => vs[i].key)
  }

  /** One variant per key hosted, in the order of their first hosts, holding exactly the wrappers that hosted
      it, names and contexts aligned. */
  ghost predicate Union(vs: seq<Variant>, ts: seq<Trial>) {
    && KeyList(vs) == Keys(ts)
    && (forall i, j | 0 <= i < j < |vs| :: vs[i].key != vs[j].key)
    && (forall i | 0 <= i < |vs| :: HostsOf(ts, vs[i].key) != [] && Aligned(vs[i], HostsOf(ts, vs[i].key)))
    && (forall k | HostsOf(ts, k) != [] :: HasKey(vs, k))
  }

  predicate HasKey(vs: seq<Variant>, k: string) {
    exists i | 0 <= i < |vs| :: vs[i].key == k
  }

  ghost predicate Indexed(seen: map<string, nat>, vs: seq<Variant>) {
    && (forall i | 0 <= i < |vs| :: vs[i].key in seen && seen[vs[i].key] == i)
    && (forall k | k in seen :: seen[k] < |vs| && vs[seen[k]].key == k)
  }

  lemma HostsStep(ts: seq<Trial>, i: nat, key: string)
    requires i < |ts|
    ensures HostsOf(ts[..i + 1], key) == if ts[i].attempt == Hosted(key) then HostsOf(ts[..i], key) + [ts[i].wrapper] else HostsOf(ts[..i], key)
  {
    assert ts[..i + 1][..i] == ts[..i];
    assert HostsOf(ts[..i], key) + [] == HostsOf(ts[..i], key);
  }

  lemma KeysStep(ts: seq<Trial>, i: nat)
    requires i < |ts|
    ensures Keys(ts[..i + 1]) == if ts[i].attempt.Hosted? && ts[i].attempt.key !in Keys(ts[..i])
                                 then Keys(ts[..i]) + [ts[i].attempt.key] else Keys(ts[..i])
  {
    assert ts[..i + 1][..i] == ts[..i];
  }

  lemma KeyOfVariant(vs: seq<Variant>, k: string)
    ensures k in KeyList(vs) <==> HasKey(vs, k)
  {
    if HasKey(vs, k) {
      var i :| 0 <= i < |vs| && vs[i].key == k;
      assert KeyList(vs)[i] == k;
    }
  }

  lemma UnionRejected(vs: seq<Variant>, ts: seq<Trial>, i: nat)
    requires i < |ts| && !ts[i].attempt.Hosted? && Union(vs, ts[..i])
    ensures Union(vs, ts[..i + 1])
  {
    hide HostsOf, Aligned, Keys;
    KeysStep(ts, i);
    forall k ensures HostsOf(ts[..i + 1], k) == HostsOf(ts[..i], k) {
      HostsStep(ts, i, k);
    }
  }

  lemma AlignedGrows(v: Variant, ws: seq<Wrapper>, w: Wrapper)
    requires Aligned(v, ws)
    ensures Aligned(v.(contexts := v.contexts + [w.context], wrappers := v.wrappers + [w.name]), ws + [w])
  {
  }

  /** A second wrapper for a key joins the variant that has it. */
  lemma UnionMerged(vs: seq<Variant>, ts: seq<Trial>, i: nat, at: nat)
    requires i < |ts| && Union(vs, ts[..i]) && at < |vs| && ts[i].attempt == Hosted(vs[at].key)
    ensures var v := vs[at].(contexts := vs[at].contexts + [ts[i].wrapper.context], wrappers := vs[at].wrappers + [ts[i].wrapper.name]);
            Union(vs[at := v], ts[..i + 1])
  {
    hide HostsOf, Keys, Aligned;
    KeysStep(ts, i);
    AlignedGrows(vs[at], HostsOf(ts[..i], vs[at].key), ts[i].wrapper);
    assert KeyList(vs)[at] == vs[at].key;
    var v := vs[at].(contexts := vs[at].contexts + [ts[i].wrapper.context], wrappers := vs[at].wrappers + [ts[i].wrapper.name]);
    var vs' := vs[at := v];
    forall k ensures HostsOf(ts[..i + 1], k) == if k == vs[at].key then HostsOf(ts[..i], k) + [ts[i].wrapper] else HostsOf(ts[..i], k) {
      HostsStep(ts, i, k);
    }
    forall k | HasKey(vs, k) ensures HasKey(vs', k) {
      var j :| 0 <= j < |vs| && vs[j].key == k;
      assert vs'[j].key == k;
    }
    assert HasKey(vs, vs[at].key);
    SameKeyList(vs, at, v);
  }

  lemma SameKeyList(vs: seq<Variant>, at: nat, v: Variant)
    requires at < |vs| && v.key == vs[at].key
    ensures KeyList(vs[at := v]) == KeyList(vs)
  {
  }

  lemma AlignedAlone(tree: nat, key: string, w: Wrapper)
    ensures Aligned(Variant(tree, key, [w.context], [w.name]), [] + [w])
  {
  }

  /** A key met for the first time becomes a variant. */
  lemma UnionAdded(vs: seq<Variant>, ts: seq<Trial>, i: nat, tree: nat, key: string)
    requires i < |ts| && Union(vs, ts[..i]) && ts[i].attempt == Hosted(key)
    requires forall j | 0 <= j < |vs| :: vs[j].key != key
    ensures Union(vs + [Variant(tree, key, [ts[i].wrapper.context], [ts[i].wrapper.name])], ts[..i + 1])
  {
    hide HostsOf, Keys, Aligned;
    KeysStep(ts, i);
    KeyOfVariant(vs, key);
    AlignedAlone(tree, key, ts[i].wrapper);
    var vs' := vs + [Variant(tree, key, [ts[i].wrapper.context], [ts[i].wrapper.name])];
    forall k ensures HostsOf(ts[..i + 1], k) == if k == key then HostsOf(ts[..i], k) + [ts[i].wrapper] else HostsOf(ts[..i], k) {
      HostsStep(ts, i, k);
    }
    assert !HasKey(vs, key);
    assert KeyList(vs') == KeyList(vs) + [key];
    assert HostsOf(ts[..i], key) == [];
    forall k | HasKey(vs, k) || k == key ensures HasKey(vs', k) {
      if k == key {
        assert vs'[|vs|].key == k;
      } else {
        var j :| 0 <= j < |vs| && vs[j].key == k;
        assert vs'[j].key == k;
      }
    }
  }

  lemma RejectsStep(ts: seq<Trial>, i: nat)
    requires i < |ts|
    ensures Rejects(ts[..i + 1]) == Rejects(ts[..i])
            + if ReasonOf(ts[i].attempt).Some? then [ts[i].wrapper.name + "[" + ts[i].wrapper.context + "]: " + ReasonOf(ts[i].attempt).value] else []
  {
    assert ts[..i + 1][..i] == ts[..i];
  }

  /** One wrapper: a tree that does not become a candidate is closed before returning. */
  method TryWrapper(trees: Trees, attempt: Attempt) returns (r: Result<Option<nat>, string>)
    requires trees.Valid()
    modifies trees
    ensures trees.Valid()
    ensures match attempt
            case Hosted(_) => r.Ok? && r.value.Some? && r.value.value !in old(trees.open) && trees.open == old(trees.open) + {r.value.value}
            case Faulty(e) => r == Err(e) && trees.open == old(trees.open)
            case _ => r == Ok(None) && trees.open == old(trees.open)
  {
    if attempt.Unparsed? && !attempt.partial {
      return Ok(None);
    }
    var tree := trees.Parse();
    match attempt
    case Hosted(_) =>
      return Ok(Some(tree));
    case Faulty(e) =>
      trees.Close(tree);
      return Err(e);
    case _ =>
      trees.Close(tree);
      return Ok(None);
  }

  lemma NothingOwned(trees: Trees, before: set<nat>)
    requires trees.Valid() && trees.open == before
    ensures Owns(trees, before, [])
  {
    var none: seq<Variant> := [];
    assert Handles(none) == {};
  }

  lemma OwnsAdded(vs: seq<Variant>, v: Variant)
    requires DistinctTrees(vs) && v.tree !in Handles(vs)
    ensures DistinctTrees(vs + [v]) && Handles(vs + [v]) == Handles(vs) + {v.tree}
  {
    forall i | 0 <= i < |vs| ensures vs[i].tree != v.tree {
      assert vs[i] in vs;
    }
  }

  lemma OwnsRelabelled(vs: seq<Variant>, at: nat, v: Variant)
    requires DistinctTrees(vs) && at < |vs| && v.tree == vs[at].tree
    ensures DistinctTrees(vs[at := v]) && Handles(vs[at := v]) == Handles(vs)
  {
    var vs' := vs[at := v];
    forall i | 0 <= i < |vs| ensures vs'[i].tree == vs[i].tree && vs'[i] in vs' && vs[i] in vs {
    }
    forall h | h in Handles(vs) ensures h in Handles(vs') {
      var i :| 0 <= i < |vs| && vs[i].tree == h;
      assert vs'[i] in vs';
    }
    forall h | h in Handles(vs') ensures h in Handles(vs) {
      var i :| 0 <= i < |vs'| && vs'[i].tree == h;
      assert vs[i] in vs;
    }
  }

  /** A hosting wrapper joins the variant compiled to the same key, its own tree closed, or becomes a new
      variant. */
  method Merge(trees: Trees, vs: seq<Variant>, seen: map<string, nat>, ts: seq<Trial>, i: nat, tree: nat,
          ghost before: set<nat>)
    returns (vs': seq<Variant>, seen': map<string, nat>)
    requires i < |ts| && ts[i].attempt.Hosted? && Union(vs, ts[..i]) && Indexed(seen, vs)
    requires trees.Valid() && DistinctTrees(vs) && Handles(vs) !! before
    requires tree !in before + Handles(vs) && trees.open == before + Handles(vs) + {tree}
    modifies trees
    ensures Owns(trees, before, vs') && Union(vs', ts[..i + 1]) && Indexed(seen', vs')
  {
    hide Union, HostsOf;
    var w, key := ts[i].wrapper, ts[i].attempt.key;
    if key in seen {
      var at := seen[key];
      var v := vs[at].(contexts := vs[at].contexts + [w.context], wrappers := vs[at].wrappers + [w.name]);
      UnionMerged(vs, ts, i, at);
      OwnsRelabelled(vs, at, v);
      trees.Close(tree);
      return vs[at := v], seen;
    }
    UnionAdded(vs, ts, i, tree, key);
    OwnsAdded(vs, Variant(tree, key, [w.context], [w.name]));
    return vs + [Variant(tree, key, [w.context], [w.name])], seen[key := |vs|];
  }

  lemma NothingUnited(ts: seq<Trial>)
    ensures Union([], ts[..0]) && Indexed(map[], []) && Rejects(ts[..0]) == []
  {
  }

  /** Tries every wrapper in order. A compiler fault aborts, every tree released. */
  method Enumerate(trees: Trees, ts: seq<Trial>) returns (r: Result<seq<Variant>, CompileError>, rejects: seq<string>)
    requires trees.Valid()
    modifies trees
    ensures r.Ok? ==> Owns(trees, old(trees.open), r.value) && Union(r.value, ts) && rejects == Rejects(ts)
    ensures r.Err? ==> trees.Valid() && trees.open == old(trees.open)
    ensures r.Err? <==> exists i | 0 <= i < |ts| :: ts[i].attempt.Faulty?
  {
    var vs: seq<Variant> := [];
    var seen: map<string, nat> := map[];
    rejects := [];
    NothingOwned(trees, trees.open);
    NothingUnited(ts);
    hide Union, HostsOf, Rejects, Indexed, Handles, DistinctTrees, Owns;
    for i := 0 to |ts|
      invariant trees.Valid()
      invariant Owns(trees, old(trees.open), vs) && Union(vs, ts[..i]) && Indexed(seen, vs) && rejects == Rejects(ts[..i])
      invariant forall j | 0 <= j < i :: !ts[j].attempt.Faulty?
    {
      RejectsStep(ts, i);
      var outcome := TryWrapper(trees, ts[i].attempt);
      if outcome.Err? {
        assert ts[i].attempt.Faulty?;
        CloseVariants(trees, vs, old(trees.open));
        return Err(Fault(outcome.error)), rejects;
      }
      if outcome.value.None? {
        UnionRejected(vs, ts, i);
        rejects := rejects + [ts[i].wrapper.name + "[" + ts[i].wrapper.context + "]: " + ReasonOf(ts[i].attempt).value];
      } else {
        vs, seen := Merge(trees, vs, seen, ts, i, outcome.value.value, old(trees.open));
      }
    }
    assert ts[..|ts|] == ts;
    return Ok(vs), rejects;
  }

  // ----- narrowing -----

  /** The variants whose flag is `b`, in order. */
  function Select(vs: seq<Variant>, drop: seq<bool>, b: bool): seq<Variant>
    requires |drop| == |vs|
  {
    if vs == [] then []
    else Select(vs[..|vs| - 1], drop[..|vs| - 1], b) + if drop[|vs| - 1] == b then [vs[|vs| - 1]] else []
  }

  /** A member reading whose name is a keyword to another variant. */
  predicate Eligible(v: Variant, readsKeyword: bool) {
    MEMBER in v.contexts && readsKeyword
  }

  predicate AllEligible(vs: seq<Variant>, keyword: seq<bool>)
    requires |keyword| == |vs|
  {
    forall i | 0 <= i < |vs| :: Eligible(vs[i], keyword[i])
  }

  /** Every eligible variant is dropped, except the last when nothing else would be left. */
  predicate Drops(vs: seq<Variant>, keyword: seq<bool>, drop: seq<bool>)
    requires |keyword| == |vs|
  {
    && |drop| == |vs|
    && forall i | 0 <= i < |vs| ::
         drop[i] <==> Eligible(vs[i], keyword[i]) && !(i == |vs| - 1 && AllEligible(vs, keyword))
  }

  function CountTrue(bs: seq<bool>): nat {
    if bs == [] then 0 else CountTrue(bs[..|bs| - 1]) + if bs[|bs| - 1] then 1 else 0
  }

  lemma {:induction false} CountTrueBound(bs: seq<bool>)
    ensures CountTrue(bs) <= |bs| && (CountTrue(bs) == |bs| <==> forall i | 0 <= i < |bs| :: bs[i])
    ensures CountTrue(bs) == 0 <==> forall i | 0 <= i < |bs| :: !bs[i]
    decreases |bs|
  {
    if bs != [] {
      CountTrueBound(bs[..|bs| - 1]);
    }
  }

  lemma CountTrueStep(bs: seq<bool>, b: bool)
    ensures CountTrue(bs + [b]) == CountTrue(bs) + if b then 1 else 0
  {
    assert (bs + [b])[..|bs|] == bs;
  }

  lemma SelectStep(vs: seq<Variant>, drop: seq<bool>, b: bool, i: nat)
    requires |drop| == |vs| && i < |vs|
    ensures Select(vs[..i + 1], drop[..i + 1], b) == Select(vs[..i], drop[..i], b) + if drop[i] == b then [vs[i]] else []
  {
    assert vs[..i + 1][..i] == vs[..i] && drop[..i + 1][..i] == drop[..i];
  }

  lemma {:induction false} SelectAll(vs: seq<Variant>, drop: seq<bool>, b: bool)
    requires |drop| == |vs| && forall i | 0 <= i < |drop| :: drop[i] == b
    ensures Select(vs, drop, b) == vs && Select(vs, drop, !b) == []
    decreases |vs|
  {
    if vs != [] {
      SelectAll(vs[..|vs| - 1], drop[..|vs| - 1], b);
      assert vs == vs[..|vs| - 1] + [vs[|vs| - 1]];
    }
  }

  lemma {:induction false} SelectSome(vs: seq<Variant>, drop: seq<bool>, b: bool, i: nat)
    requires |drop| == |vs| && i < |vs| && drop[i] == b
    ensures vs[i] in Select(vs, drop, b)
    decreases |vs|
  {
    if i < |vs| - 1 {
      SelectSome(vs[..|vs| - 1], drop[..|vs| - 1], b, i);
    }
  }

  lemma {:induction false} SelectIsPart(vs: seq<Variant>, drop: seq<bool>)
    requires |drop| == |vs|
    ensures multiset(Select(vs, drop, false)) + multiset(Select(vs, drop, true)) == multiset(vs)
    decreases |vs|
  {
    if vs != [] {
      SelectIsPart(vs[..|vs| - 1], drop[..|vs| - 1]);
      assert vs == vs[..|vs| - 1] + [vs[|vs| - 1]];
    }
  }

  /** Which variants the keyword rule drops: a flag a variant, decided in order. */
  method MarkDropped(vs: seq<Variant>, keyword: seq<bool>) returns (drop: seq<bool>, dropped: nat)
    requires |keyword| == |vs|
    ensures Drops(vs, keyword, drop) && dropped == CountTrue(drop)
  {
    drop, dropped := [], 0;
    for i := 0 to |vs|
      invariant |drop| == i && dropped == CountTrue(drop)
      invariant forall j | 0 <= j < i :: drop[j] <==> Eligible(vs[j], keyword[j]) && !(j == |vs| - 1 && AllEligible(vs, keyword))
    {
      var flag := false;
      CountTrueBound(drop);
      if MEMBER in vs[i].contexts && keyword[i] && |vs| - dropped >= 2 {
        flag := true;
        dropped := dropped + 1;
      }
      CountTrueStep(drop, flag);
      drop := drop + [flag];
    }
  }

  /** Sets the member readings of keywords aside, unless the caller pinned the member context. */
  method NarrowMemberKeywordVariants(vs: seq<Variant>, keyword: seq<bool>, pin: string)
    returns (kept: seq<Variant>, narrowed: seq<Variant>, ghost drop: seq<bool>)
    requires |keyword| == |vs|
    ensures |drop| == |vs| && kept == Select(vs, drop, false) && narrowed == Select(vs, drop, true)
    ensures if pin == MEMBER then kept == vs && narrowed == [] else Drops(vs, keyword, drop)
    ensures vs != [] ==> kept != []
    ensures multiset(kept) + multiset(narrowed) == multiset(vs)
  {
    if pin == MEMBER {
      drop := seq(|vs|, _ => false);
      SelectAll(vs, drop, false);
      return vs, [], drop;
    }
    var flags, dropped := MarkDropped(vs, keyword);
    drop := flags;
    SelectIsPart(vs, flags);
    if vs != [] {
      NotAllDropped(vs, keyword, flags);
    }
    if dropped == 0 {
      CountTrueBound(flags);
      SelectAll(vs, flags, false);
      return vs, [], drop;
    }
    kept, narrowed := [], [];
    for i := 0 to |vs|
      invariant kept == Select(vs[..i], flags[..i], false) && narrowed == Select(vs[..i], flags[..i], true)
    {
      hide Select, Drops;
      SelectStep(vs, flags, false, i);
      SelectStep(vs, flags, true, i);
      if flags[i] {
        narrowed := narrowed + [vs[i]];
      } else {
        kept := kept + [vs[i]];
      }
    }
    assert vs[..|vs|] == vs && flags[..|vs|] == flags;
  }

  lemma NotAllDropped(vs: seq<Variant>, keyword: seq<bool>, drop: seq<bool>)
    requires |keyword| == |vs| && Drops(vs, keyword, drop) && vs != []
    ensures Select(vs, drop, false) != []
  {
    hide Select;
    if AllEligible(vs, keyword) {
      SelectSome(vs, drop, false, |vs| - 1);
    } else {
      var i :| 0 <= i < |vs| && !Eligible(vs[i], keyword[i]);
      SelectSome(vs, drop, false, i);
    }
  }

  // ----- pinning -----

  /** The variants one context keeps. */
  function Pinned(vs: seq<Variant>, pin: string): seq<Variant> {
    if vs == [] then []
    else Pinned(vs[..|vs| - 1], pin) + if pin in vs[|vs| - 1].contexts then [vs[|vs| - 1]] else []
  }

  lemma PinnedStep(vs: seq<Variant>, pin: string, i: nat)
    requires i < |vs|
    ensures Pinned(vs[..i + 1], pin) == Pinned(vs[..i], pin) + if pin in vs[i].contexts then [vs[i]] else []
  {
    assert vs[..i + 1][..i] == vs[..i];
  }

  /** Narrows to one context, closing the trees it drops; selecting nothing closes them all and names the
      contexts that would have worked. */
  method ApplyContextPin(trees: Trees, vs: seq<Variant>, pin: string, names: seq<string>, rejects0: seq<string>,
          ghost before: set<nat>)
    returns (r: Result<seq<Variant>, CompileError>)
    requires Owns(trees, before, vs)
    modifies trees
    ensures r.Ok? ==> Owns(trees, before, r.value) && r.value == if pin == "" then vs else Pinned(vs, pin)
    ensures r.Err? <==> pin != "" && Pinned(vs, pin) == []
    ensures r.Err? ==> trees.Valid() && trees.open == before
    ensures r.Err? ==> r.error.NothingCompiled? && forall c :: c in r.error.produced <==> exists i | 0 <= i < |vs| :: c in vs[i].contexts
  {
    if pin == "" {
      return Ok(vs);
    }
    var kept: seq<Variant>, produced: seq<string>, rejects := [], [], rejects0;
    var none: seq<Variant> := [];
    assert vs[0..] == vs && Handles(none) == {};
    for i := 0 to |vs|
      invariant trees.Valid() && trees.open == before + Handles(kept) + Handles(vs[i..])
      invariant kept == Pinned(vs[..i], pin)
      invariant DistinctTrees(kept) && Handles(kept) !! before && Handles(kept) !! Handles(vs[i..])
      invariant kept == [] ==> forall c :: c in produced <==> exists j | 0 <= j < i :: c in vs[j].contexts
    {
      hide Pinned, Handles, DistinctTrees;
      HandlesSplit(vs, i);
      PinnedStep(vs, pin, i);
      HandleOf(vs, i);
      if pin in vs[i].contexts {
        OwnsAdded(kept, vs[i]);
        kept := kept + [vs[i]];
        continue;
      }
      produced, rejects := NoteExcluded(vs[i], pin, produced, rejects);
      trees.Close(vs[i].tree);
    }
    assert vs[..|vs|] == vs && Handles(vs[|vs|..]) == {};
    if kept != [] {
      return Ok(kept);
    }
    return Err(NothingCompiled(names, rejects, produced));
  }

  lemma HandleOf(vs: seq<Variant>, i: nat)
    requires i < |vs|
    ensures vs[i].tree in Handles(vs)
  {
  }

  method NoteExcluded(v: Variant, pin: string, produced0: seq<string>, rejects0: seq<string>)
    returns (produced: seq<string>, rejects: seq<string>)
    ensures forall c :: c in produced <==> c in produced0 || c in v.contexts
  {
    produced, rejects := produced0, rejects0;
    for j := 0 to |v.contexts|
      invariant forall c :: c in produced <==> c in produced0 || c in v.contexts[..j]
    {
      var name := if j < |v.wrappers| then v.wrappers[j] else "";
      rejects := rejects + [name + "[" + v.contexts[j] + "]: excluded by context pin " + pin];
      if v.contexts[j] !in produced {
        produced := produced + [v.contexts[j]];
      }
      assert v.contexts[..j + 1] == v.contexts[..j] + [v.contexts[j]];
    }
    assert v.contexts[..|v.contexts|] == v.contexts;
  }

  /** A pin keeps exactly the variants carrying its context. */
  lemma {:induction false} PinnedIffCarries(vs: seq<Variant>, pin: string, v: Variant)
    ensures v in Pinned(vs, pin) <==> v in vs && pin in v.contexts
    decreases |vs|
  {
    if vs != [] {
      PinnedIffCarries(vs[..|vs| - 1], pin, v);
      assert vs == vs[..|vs| - 1] + [vs[|vs| - 1]];
    }
  }

  // ----- the whole compile -----

  /** The kept and the narrowed variants of a union. */
  ghost predicate Narrowed(vs: seq<Variant>, keyword: seq<bool>, pin: string, kept: seq<Variant>,
          narrowed: seq<Variant>)
    requires |keyword| == |vs|
  {
    if pin == MEMBER then kept == Pinned(vs, pin) && narrowed == []
    else exists drop :: Drops(vs, keyword, drop) && narrowed == Select(vs, drop, true)
                        && kept == if pin == "" then Select(vs, drop, false) else Pinned(Select(vs, drop, false), pin)
  }

  /** Two lists own the trees of one between them. */
  ghost predicate Between(vs: seq<Variant>, a: seq<Variant>, b: seq<Variant>) {
    DistinctTrees(a) && DistinctTrees(b) && Handles(a) !! Handles(b) && Handles(a) + Handles(b) == Handles(vs)
  }

  lemma BetweenGrows(vs: seq<Variant>, a: seq<Variant>, b: seq<Variant>, v: Variant)
    requires Between(vs, a, b) && DistinctTrees(vs) && v.tree !in Handles(vs)
    ensures Between(vs + [v], a + [v], b) && Between(vs + [v], b, a + [v])
  {
    hide Handles, DistinctTrees;
    OwnsAdded(vs, v);
    OwnsAdded(a, v);
  }

  lemma BetweenSwaps(vs: seq<Variant>, a: seq<Variant>, b: seq<Variant>)
    requires Between(vs, a, b)
    ensures Between(vs, b, a)
  {
    hide Handles, DistinctTrees;
  }

  lemma {:induction false} SelectOwned(vs: seq<Variant>, drop: seq<bool>)
    requires |drop| == |vs| && DistinctTrees(vs)
    ensures Between(vs, Select(vs, drop, false), Select(vs, drop, true))
    decreases |vs|
  {
    if vs == [] {
      NoHandles(vs);
    } else {
      var n := |vs| - 1;
      hide Handles, DistinctTrees, Select, Between;
      LastApart(vs);
      SelectOwned(vs[..n], drop[..n]);
      SelectLast(vs, drop, true);
      SelectLast(vs, drop, false);
      if drop[n] {
        BetweenSwaps(vs[..n], Select(vs[..n], drop[..n], false), Select(vs[..n], drop[..n], true));
        BetweenGrows(vs[..n], Select(vs[..n], drop[..n], true), Select(vs[..n], drop[..n], false), vs[n]);
      } else {
        BetweenGrows(vs[..n], Select(vs[..n], drop[..n], false), Select(vs[..n], drop[..n], true), vs[n]);
      }
    }
  }

  lemma SelectLast(vs: seq<Variant>, drop: seq<bool>, which: bool)
    requires |drop| == |vs| > 0
    ensures var n := |vs| - 1;
            && vs == vs[..n] + [vs[n]]
            && Select(vs, drop, which) == if drop[n] == which then Select(vs[..n], drop[..n], which) + [vs[n]]
                                          else Select(vs[..n], drop[..n], which)
  {
  }

  lemma LastApart(vs: seq<Variant>)
    requires vs != [] && DistinctTrees(vs)
    ensures DistinctTrees(vs[..|vs| - 1]) && vs[|vs| - 1].tree !in Handles(vs[..|vs| - 1])
  {
  }

  /** Compiles a fragment to the union of its variants. Every tree parsed on the way is owned by exactly one
      returned variant, kept or narrowed, or was closed; an error leaves none open. */
  method CompileVariants(trees: Trees, ts: seq<Trial>, readsKeyword: seq<Variant> -> seq<bool>,
          opaqueFault: Variant -> bool, pin: string)
    returns (r: Result<(seq<Variant>, seq<Variant>), CompileError>)
    requires trees.Valid() && forall vs :: |readsKeyword(vs)| == |vs|
    modifies trees
    ensures trees.Valid()
    ensures r.Ok? ==> trees.open == old(trees.open) + Handles(r.value.0) + Handles(r.value.1)
    ensures r.Ok? ==> DistinctTrees(r.value.0) && DistinctTrees(r.value.1)
    ensures r.Ok? ==> Handles(r.value.0) !! old(trees.open) && Handles(r.value.1) !! old(trees.open) + Handles(r.value.0)
    ensures r.Ok? ==> r.value.0 != []
    ensures r.Ok? ==> exists vs :: Union(vs, ts) && |readsKeyword(vs)| == |vs| && Narrowed(vs, readsKeyword(vs), pin, r.value.0, r.value.1)
    ensures r.Err? ==> trees.open == old(trees.open)
  {
    if ts == [] {
      return Err(NoWrappers);
    }
    var found, rejects := Enumerate(trees, ts);
    if found.Err? {
      return Err(found.error);
    }
    hide Union, Drops, Select, DistinctTrees, HostsOf, Pinned;
    var vs := found.value;
    if vs == [] {
      NoHandles(vs);
      return Err(NothingCompiled(Names(ts), rejects, []));
    }
    hide Handles;
    for i := 0 to |vs|
    {
      if opaqueFault(vs[i]) {
        CloseVariants(trees, vs, old(trees.open));
        return Err(OpaquePlaceholder);
      }
    }
    r := NarrowAndPin(trees, vs, readsKeyword(vs), pin, Names(ts), rejects, old(trees.open));
  }

  lemma NoHandles(vs: seq<Variant>)
    requires vs == []
    ensures Handles(vs) == {}
  {
  }

  /** What the narrowing and the pin leave of the union. */
  method NarrowAndPin(trees: Trees, vs: seq<Variant>, keyword: seq<bool>, pin: string, names: seq<string>,
          rejects: seq<string>,
          ghost before: set<nat>)
    returns (r: Result<(seq<Variant>, seq<Variant>), CompileError>)
    requires Owns(trees, before, vs) && vs != [] && |keyword| == |vs|
    modifies trees
    ensures trees.Valid()
    ensures r.Ok? ==> trees.open == before + Handles(r.value.0) + Handles(r.value.1)
    ensures r.Ok? ==> DistinctTrees(r.value.0) && DistinctTrees(r.value.1)
    ensures r.Ok? ==> Handles(r.value.0) !! before && Handles(r.value.1) !! before + Handles(r.value.0)
    ensures r.Ok? ==> r.value.0 != []
    ensures r.Ok? ==> Narrowed(vs, keyword, pin, r.value.0, r.value.1)
    ensures r.Err? ==> trees.open == before
  {
    hide Drops, Select, DistinctTrees, Handles, Pinned;
    var kept, narrowed;
    ghost var drop;
    kept, narrowed, drop := NarrowMemberKeywordVariants(vs, keyword, pin);
    SelectOwned(vs, drop);
    ghost var held := before + Handles(narrowed);
    var pinned := ApplyContextPin(trees, kept, pin, names, rejects, held);
    if pinned.Err? {
      CloseVariants(trees, narrowed, before);
      return Err(pinned.error);
    }
    return Ok((pinned.value, narrowed));
  }
}
