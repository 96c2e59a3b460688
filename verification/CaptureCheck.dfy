/**
 The check itself, scope by scope: declare every handle of a level, check every reference at it, then
 descend into each nested where-tree with a child scope.
 */
module CaptureCheck {
  import opened Bytes
  import opened Outcomes
  import opened MatchRecords
  import opened PlaceholderDsl
  import opened WhereTree

  /** One level of the declared-name chain. */
  class CaptureScope {
    var declared: set<bytes>
    const parent: CaptureScope?

    constructor (parent: CaptureScope?)
      ensures declared == {IMPLICIT} && this.parent == parent
    {
      this.declared, this.parent := {IMPLICIT}, parent;
    }
  }

  /** The chain of a scope, innermost first. */
  ghost predicate Chain(chain: seq<CaptureScope>) {
    && chain != []
    && forall i | 0 <= i < |chain| :: chain[i].parent == At(chain, i + 1)
  }

  /** The scope that many steps out, null past the outermost. */
  ghost function At(chain: seq<CaptureScope>, i: nat): CaptureScope? {
    if i < |chain| then chain[i] else null
  }

  ghost predicate Declares(chain: seq<CaptureScope>, levels: seq<Level>)
    reads set i | 0 <= i < |chain| :: chain[i]
  {
    && |chain| == |levels|
    && forall i | 0 <= i < |chain| :: chain[i].declared == levels[i].base + levels[i].handles
  }

  method Resolves(scope: CaptureScope, ref: bytes, ghost chain: seq<CaptureScope>) returns (ok: bool)
    requires Chain(chain) && chain[0] == scope
    ensures ok <==> OuterDepth(ref) < |chain| && InnerName(ref) in chain[OuterDepth(ref)].declared
  {
    var cur: CaptureScope? := scope;
    var name := ref;
    ghost var depth: nat := 0;
    while STEP_OUT <= name
      invariant OuterDepth(ref) == depth + OuterDepth(name) && InnerName(ref) == InnerName(name)
      invariant depth <= |chain| && cur == At(chain, depth)
      decreases |name|
    {
      name := name[|STEP_OUT|..];
      if cur == null {
        return false;
      }
      assert chain[depth].parent == At(chain, depth + 1);
      cur := cur.parent;
      depth := depth + 1;
    }
    if cur == null {
      return false;
    }
    return name in cur.declared;
  }

  method CheckRef(ref: bytes, scope: CaptureScope, ghost chain: seq<CaptureScope>, ghost levels: seq<Level>)
    returns (ok: bool)
    requires Chain(chain) && chain[0] == scope && Declares(chain, levels)
    ensures ok == RefOk(levels, ref)
  {
    hide Trim;
    if Trim(ref) == [] {
      return false;
    }
    ok := Resolves(scope, ref, chain);
  }

  method CheckRefsAtLevel(w: WhereNode, scope: CaptureScope, ghost chain: seq<CaptureScope>, ghost levels: seq<Level>)
    returns (ok: bool)
    requires Chain(chain) && chain[0] == scope && Declares(chain, levels)
    ensures ok == RefsOk(w, levels)
    decreases w
  {
    hide OwnRefs, RefOk, Declares, Chain;
    for i := 0 to |w.all|
      invariant forall j | 0 <= j < i :: RefsOk(w.all[j], levels)
    {
      var child := CheckRefsAtLevel(w.all[i], scope, chain, levels);
      if !child {
        return false;
      }
    }
    for i := 0 to |w.any|
      invariant forall j | 0 <= j < i :: RefsOk(w.any[j], levels)
    {
      var child := CheckRefsAtLevel(w.any[i], scope, chain, levels);
      if !child {
        return false;
      }
    }
    if w.negated.Some? {
      var child := CheckRefsAtLevel(w.negated.value, scope, chain, levels);
      if !child {
        return false;
      }
    }
    var refs := OwnRefs(w);
    for i := 0 to |refs|
      invariant forall j | 0 <= j < i :: RefOk(levels, refs[j])
    {
      var one := CheckRef(refs[i], scope, chain, levels);
      if !one {
        assert refs[i] in OwnRefs(w);
        return false;
      }
    }
    return true;
  }

  // ----- declaring handles -----

  lemma AllHandlesStep(ws: seq<WhereNode>, i: nat)
    requires i < |ws|
    ensures AllHandles(ws[..i + 1]) == AllHandles(ws[..i]) + Handles(ws[i])
    decreases i
  {
    hide Handles;
    if i > 0 {
      assert ws[..i + 1][1..] == ws[1..][..i] && ws[..i][1..] == ws[1..][..i - 1];
      AllHandlesStep(ws[1..], i - 1);
    } else {
      assert ws[..1] == [ws[0]] && ws[..1][1..] == [];
    }
  }

  method DeclareHandles(w: WhereNode, scope: CaptureScope)
    modifies scope
    ensures scope.declared == old(scope.declared) + Handles(w)
    decreases w
  {
    hide LeafHandles;
    for i := 0 to |w.all|
      invariant scope.declared == old(scope.declared) + AllHandles(w.all[..i])
    {
      hide Handles, AllHandles;
      DeclareHandles(w.all[i], scope);
      AllHandlesStep(w.all, i);
    }
    assert w.all[..|w.all|] == w.all;
    for i := 0 to |w.any|
      invariant scope.declared == old(scope.declared) + AllHandles(w.all) + AllHandles(w.any[..i])
    {
      hide Handles, AllHandles;
      DeclareHandles(w.any[i], scope);
      AllHandlesStep(w.any, i);
    }
    assert w.any[..|w.any|] == w.any;
    hide AllHandles;
    if w.negated.Some? {
      DeclareHandles(w.negated.value, scope);
    }
    DeclareLeaf(w.inside, scope);
    DeclareLeaf(w.contains, scope);
  }

  method DeclareLeaf(leaf: Option<SubPattern>, scope: CaptureScope)
    modifies scope
    ensures scope.declared == old(scope.declared) + LeafHandles(leaf)
  {
    hide ParsePattern, NamesOfTokens, ExportedAll, Exported;
    if leaf.None? || leaf.value.handle == [] {
      return;
    }
    var handle := leaf.value.handle;
    scope.declared := scope.declared + {handle} + {Exported(handle, IMPLICIT)};
    var pat := Parse(leaf.value.pattern);
    ExportedUnion(handle, NamesOf(leaf.value.pattern), {IMPLICIT});
    ExportedOne(handle, IMPLICIT);
    if pat.Err? {
      ExportedNone(handle);
      return;
    }
    DeclareExports(scope, handle, pat.value);
  }

  method DeclareExports(scope: CaptureScope, handle: bytes, ts: seq<Token>)
    modifies scope
    ensures scope.declared == old(scope.declared) + ExportedAll(handle, NamesOfTokens(ts))
  {
    for i := 0 to |ts|
      invariant scope.declared == old(scope.declared) + ExportedAll(handle, NamesOfTokens(ts[..i]))
    {
      hide ExportedAll, NamesOfTokens, Exported;
      NamesStep(ts, i);
      if ts[i].name != [] {
        ExportedUnion(handle, NamesOfTokens(ts[..i]), {ts[i].name});
        ExportedOne(handle, ts[i].name);
        scope.declared := scope.declared + {Exported(handle, ts[i].name)};
      }
    }
    assert ts[..|ts|] == ts;
  }

  lemma ExportedNone(handle: bytes)
    ensures ExportedAll(handle, {}) == {}
  {
  }

  lemma NamesStep(ts: seq<Token>, i: nat)
    requires i < |ts|
    ensures NamesOfTokens(ts[..i + 1]) == NamesOfTokens(ts[..i]) + if ts[i].name != [] then {ts[i].name} else {}
  {
    assert ts[..i + 1] == ts[..i] + [ts[i]];
  }

  lemma ExportedUnion(handle: bytes, a: set<bytes>, b: set<bytes>)
    ensures ExportedAll(handle, a + b) == ExportedAll(handle, a) + ExportedAll(handle, b)
  {
  }

  lemma ExportedOne(handle: bytes, n: bytes)
    ensures ExportedAll(handle, {n}) == {Exported(handle, n)}
  {
  }

  // ----- nested scopes -----

  method ValidateCaptureRefs(w: WhereNode, scope: CaptureScope, ghost base: set<bytes>, ghost outer: seq<CaptureScope>,
          ghost levels: seq<Level>)
    returns (ok: bool)
    requires Chain([scope] + outer) && scope.declared == base
    requires Declares(outer, levels) && scope !in outer
    modifies scope
    ensures ok == Accepted(w, base, levels)
    decreases w, 2
  {
    hide Chain, Handles, Exports;
    DeclareHandles(w, scope);
    ghost var chain, inner := [scope] + outer, [LevelOf(w, base)] + levels;
    assert Declares(chain, inner);
    hide Declares;
    ok := CheckRefsAtLevel(w, scope, chain, inner);
    if ok {
      ok := DescendSubPatterns(w, scope, chain, inner);
    }
  }

  method DescendSubPatterns(w: WhereNode, scope: CaptureScope, ghost chain: seq<CaptureScope>, ghost levels: seq<Level>)
    returns (ok: bool)
    requires Chain(chain) && chain[0] == scope && Declares(chain, levels)
    ensures ok == NestedOk(w, levels)
    decreases w, 1
  {
    hide Declares, Chain, LeafOk;
    for i := 0 to |w.all|
      invariant forall j | 0 <= j < i :: NestedOk(w.all[j], levels)
      invariant Declares(chain, levels)
    {
      var child := DescendSubPatterns(w.all[i], scope, chain, levels);
      if !child {
        return false;
      }
    }
    for i := 0 to |w.any|
      invariant forall j | 0 <= j < i :: NestedOk(w.any[j], levels)
      invariant Declares(chain, levels)
    {
      var child := DescendSubPatterns(w.any[i], scope, chain, levels);
      if !child {
        return false;
      }
    }
    if w.negated.Some? {
      var child := DescendSubPatterns(w.negated.value, scope, chain, levels);
      if !child {
        return false;
      }
    }
    if w.inside.Some? {
      var inside := ValidateLeaf(w.inside.value, scope, chain, levels);
      if !inside {
        return false;
      }
    }
    if w.contains.Some? {
      var contains := ValidateLeaf(w.contains.value, scope, chain, levels);
      return contains;
    }
    return true;
  }

  lemma ChainGrows(child: CaptureScope, chain: seq<CaptureScope>)
    requires Chain(chain) && child.parent == chain[0]
    ensures Chain([child] + chain)
  {
    var c := [child] + chain;
    forall i | 0 <= i < |c| ensures c[i].parent == At(c, i + 1) {
      if i > 0 {
        assert chain[i - 1].parent == At(chain, i);
      }
    }
  }

  method ValidateLeaf(leaf: SubPattern, scope: CaptureScope, ghost chain: seq<CaptureScope>, ghost levels: seq<Level>)
    returns (ok: bool)
    requires Chain(chain) && chain[0] == scope && Declares(chain, levels)
    ensures ok == LeafOk(leaf, levels)
    decreases leaf, 0
  {
    hide Accepted, NamesOfTokens, ParsePattern;
    if leaf.where.None? {
      return true;
    }
    var child := new CaptureScope(scope);
    var pat := Parse(leaf.pattern);
    if pat.Err? {
      return true;
    }
    DeclareNames(child, pat.value);
    assert child !in chain;
    ChainGrows(child, chain);
    ok := ValidateCaptureRefs(leaf.where.value, child, Base(leaf.pattern), chain, levels);
  }

  method DeclareNames(scope: CaptureScope, ts: seq<Token>)
    modifies scope
    ensures scope.declared == old(scope.declared) + NamesOfTokens(ts)
  {
    for i := 0 to |ts|
      invariant scope.declared == old(scope.declared) + NamesOfTokens(ts[..i])
    {
      NamesStep(ts, i);
      if ts[i].name != [] {
        scope.declared := scope.declared + {ts[i].name};
      }
    }
    assert ts[..|ts|] == ts;
  }

  /** Accepts a where-tree for a set of patterns when it is accepted for the matches of every one. */
  method ValidateWhereCaptureRefs(where: Option<WhereNode>, pats: seq<seq<Token>>) returns (ok: bool)
    ensures ok <==> where.None? || forall k | 0 <= k < |pats| :: Accepted(where.value, NamesOfTokens(pats[k]) + {IMPLICIT}, [])
  {
    hide Accepted, NamesOfTokens;
    if where.None? {
      return true;
    }
    for k := 0 to |pats|
      invariant forall j | 0 <= j < k :: Accepted(where.value, NamesOfTokens(pats[j]) + {IMPLICIT}, [])
    {
      var root := new CaptureScope(null);
      DeclareNames(root, pats[k]);
      assert root.declared == NamesOfTokens(pats[k]) + {IMPLICIT};
      var accepted := ValidateCaptureRefs(where.value, root, NamesOfTokens(pats[k]) + {IMPLICIT}, [], []);
      if !accepted {
        return false;
      }
    }
    return true;
  }
}
