/**
 Evaluating a where-tree on one match. Every leaf resolves its captures through the scope chain; a
 sub-pattern leaf that succeeds binds its `as` handle, and under it every capture of the sub-match, in
 the scope that asked. What a leaf answers once its captures are resolved, and which nodes a
 sub-pattern matches, is left open.
 */
module WhereEval {
  import opened Bytes
  import opened Outcomes
  import opened MatchRecords
  import opened PlaceholderDsl
  import opened WhereTree

  datatype Fault = Unresolved(ref: bytes) | DepthExceeded | CrossLanguage | BadRegex | TooFewCaptures | MissingField
                 | CompileFailed | UnarmedLanguage | OutsideWithin | WithinNotANode

  const MAX_DEPTH := 8

  /** A leaf that succeeded binds its handle to the matched node, and under it the sub-match's captures. */
  datatype Binding = Binding(handle: bytes, self: Capture, sub: map<bytes, Capture>)

  /** One scope of the chain. `nodes` holds the captures that are single nodes; `own` is what the match
      itself bound, `log` what leaves have bound since. */
  class Scope {
    var captures: map<bytes, Capture>
    var nodes: map<bytes, nat>
    ghost const own: map<bytes, Capture>
    ghost var log: seq<Binding>
    const parent: Scope?
    const depth: nat
    const language: bytes

    constructor (captures: map<bytes, Capture>, nodes: map<bytes, nat>, parent: Scope?, depth: nat, language: bytes)
      ensures this.captures == captures == this.own && this.log == [] && this.nodes == nodes
      ensures this.parent == parent && this.depth == depth && this.language == language
    {
      this.captures, this.nodes, this.parent, this.depth, this.language := captures, nodes, parent, depth, language;
      this.own, this.log := captures, [];
    }
  }

  ghost function At(chain: seq<Scope>, i: nat): Scope? {
    if i < |chain| then chain[i] else null
  }

  /** The chain of a scope, innermost first. */
  ghost predicate Chain(chain: seq<Scope>) {
    && chain != []
    && (forall i | 0 <= i < |chain| :: chain[i].parent == At(chain, i + 1))
    && (forall i | 0 < i < |chain| :: chain[i] != chain[0])
  }

  predicate Dotless(names: set<bytes>) {
    forall n | n in names :: DOT !in n
  }

  /** The captures of a scope once a leaf has bound its handle: the handle's earlier keys are gone. */
  ghost function WithBinding(m: map<bytes, Capture>, b: Binding): map<bytes, Capture> {
    assert forall n | n in b.sub :: Exported(b.handle, n)[|b.handle| + 1..] == n;
    map k | k in Cleared(m, b.handle).Keys + Writes(b) ::
      if b.handle + [DOT] <= k then b.sub[k[|b.handle| + 1..]] else if k == b.handle then b.self else m[k]
  }

  function Cleared(m: map<bytes, Capture>, handle: bytes): map<bytes, Capture> {
    map k | k in m && !(handle + [DOT] <= k) :: m[k]
  }

  /** The keys a binding writes. */
  function Writes(b: Binding): set<bytes> {
    {b.handle} + ExportedAll(b.handle, b.sub.Keys)
  }

  ghost function Replay(m: map<bytes, Capture>, log: seq<Binding>): map<bytes, Capture> {
    if log == [] then m else WithBinding(Replay(m, log[..|log| - 1]), log[|log| - 1])
  }

  /** Every binding is one the where-tree may make. */
  predicate Declared(log: seq<Binding>, exports: set<bytes>) {
    forall b | b in log :: b.handle != [] && Writes(b) <= exports
  }

  /** A scope holds every name its matches bind, and nothing beyond what its where-tree may export. */
  predicate Keyed(m: map<bytes, Capture>, level: Level) {
    Dotless(level.base) && level.base <= m.Keys <= level.base + level.exports
  }

  /** What a scope holds is what its match bound, with the leaves' bindings replayed onto it. */
  ghost predicate Holds(s: Scope, level: Level)
    reads s
  {
    && Keyed(s.captures, level)
    && s.own.Keys == level.base && s.captures == Replay(s.own, s.log) && Declared(s.log, level.exports)
  }

  ghost predicate AllHold(chain: seq<Scope>, levels: seq<Level>)
    reads set i | 0 <= i < |chain| :: chain[i]
  {
    && |chain| == |levels|
    && forall i | 0 <= i < |chain| :: Holds(chain[i], levels[i])
  }

  /** The reference's name is bound to `c` in the scope as many levels out as its prefix says. */
  ghost predicate StandsFor(chain: seq<Scope>, ref: bytes, c: Capture)
    reads set i | 0 <= i < |chain| :: chain[i]
  {
    && OuterDepth(ref) < |chain| && InnerName(ref) in chain[OuterDepth(ref)].captures
    && c == chain[OuterDepth(ref)].captures[InnerName(ref)]
  }

  method ResolveCapture(scope: Scope, ref: bytes, ghost chain: seq<Scope>)
    returns (r: Result<(Capture, Option<nat>), Fault>)
    requires Chain(chain) && chain[0] == scope
    ensures r.Ok? <==> OuterDepth(ref) < |chain| && InnerName(ref) in chain[OuterDepth(ref)].captures
    ensures r.Ok? ==> StandsFor(chain, ref, r.value.0)
    ensures r.Err? ==> r == Err(Unresolved(ref))
  {
    var cur: Scope? := scope;
    var name := ref;
    ghost var steps: nat := 0;
    while STEP_OUT <= name
      invariant OuterDepth(ref) == steps + OuterDepth(name) && InnerName(ref) == InnerName(name)
      invariant steps <= |chain| && cur == At(chain, steps)
      decreases |name|
    {
      name := name[|STEP_OUT|..];
      if cur == null {
        return Err(Unresolved(ref));
      }
      assert chain[steps].parent == At(chain, steps + 1);
      cur := cur.parent;
      steps := steps + 1;
    }
    if cur == null {
      return Err(Unresolved(ref));
    }
    if name !in cur.captures {
      return Err(Unresolved(ref));
    }
    return Ok((cur.captures[name], if name in cur.nodes then Some(cur.nodes[name]) else None));
  }

  /** A reference the check accepted resolves, unless it names only a handle. */
  lemma MissedIsHandle(chain: seq<Scope>, levels: seq<Level>, ref: bytes)
    requires AllHold(chain, levels) && RefOk(levels, ref)
    requires OuterDepth(ref) < |chain| ==> InnerName(ref) !in chain[OuterDepth(ref)].captures
    ensures NamesOnlyHandle(levels, ref)
  {
    hide Trim, Replay, Declared;
    assert Holds(chain[OuterDepth(ref)], levels[OuterDepth(ref)]);
  }

  /** Resolves a reference the check accepted. */
  method Resolve(scope: Scope, ref: bytes, ghost chain: seq<Scope>, ghost levels: seq<Level>)
    returns (r: Result<(Capture, Option<nat>), Fault>)
    requires Chain(chain) && chain[0] == scope && AllHold(chain, levels) && RefOk(levels, ref)
    ensures r.Err? ==> r == Err(Unresolved(ref)) && NamesOnlyHandle(levels, ref)
    ensures r.Ok? ==> StandsFor(chain, ref, r.value.0)
  {
    hide Chain, AllHold, NamesOnlyHandle, Blank, StandsFor;
    r := ResolveCapture(scope, ref, chain);
    if r.Err? {
      MissedIsHandle(chain, levels, ref);
    }
  }

  // ----- the leaves that read only their captures -----

  /** An error that blames a capture blames one no match binds. */
  ghost predicate Blames(r: Result<bool, Fault>, levels: seq<Level>) {
    r.Err? && r.error.Unresolved? ==> NamesOnlyHandle(levels, r.error.ref)
  }

  method EvalOne(scope: Scope, of: bytes, ghost chain: seq<Scope>, ghost levels: seq<Level>)
    returns (r: Result<bool, Fault>)
    requires Chain(chain) && chain[0] == scope && AllHold(chain, levels) && RefOk(levels, of)
    ensures Blames(r, levels)
  {
    hide NamesOnlyHandle;
    var c := Resolve(scope, of, chain, levels);
    if c.Err? {
      return Err(c.error);
    }
    var verdict: bool := *;
    return Ok(verdict);
  }

  method EvalMatches(scope: Scope, of: bytes, ghost chain: seq<Scope>, ghost levels: seq<Level>)
    returns (r: Result<bool, Fault>)
    requires Chain(chain) && chain[0] == scope && AllHold(chain, levels) && RefOk(levels, of)
    ensures Blames(r, levels)
  {
    if * {
      return Err(BadRegex);
    }
    r := EvalOne(scope, of, chain, levels);
  }

  method EvalSame(scope: Scope, refs: seq<bytes>, ghost chain: seq<Scope>, ghost levels: seq<Level>)
    returns (r: Result<bool, Fault>)
    requires Chain(chain) && chain[0] == scope && AllHold(chain, levels) && AllRefsOk(levels, refs)
    ensures Blames(r, levels)
  {
    hide NamesOnlyHandle, Chain, AllHold, RefOk;
    if |refs| < 2 {
      return Err(TooFewCaptures);
    }
    var first := Resolve(scope, refs[0], chain, levels);
    if first.Err? {
      return Err(first.error);
    }
    for i := 1 to |refs| {
      var c := Resolve(scope, refs[i], chain, levels);
      if c.Err? {
        return Err(c.error);
      }
      if * {
        return Ok(false);
      }
    }
    return Ok(true);
  }

  method EvalFlowsTo(scope: Scope, leaf: FlowsTo, ghost chain: seq<Scope>, ghost levels: seq<Level>)
    returns (r: Result<bool, Fault>)
    requires Chain(chain) && chain[0] == scope && AllHold(chain, levels)
    requires RefOk(levels, leaf.from) && RefOk(levels, leaf.to) && RefOk(levels, leaf.within)
    ensures Blames(r, levels)
  {
    hide NamesOnlyHandle, Chain, AllHold, RefOk, Blank, OuterDepth, InnerName;
    if Blank(leaf.from) || Blank(leaf.to) || Blank(leaf.within) {
      return Err(MissingField);
    }
    var from := Resolve(scope, leaf.from, chain, levels);
    if from.Err? {
      return Err(from.error);
    }
    var to := Resolve(scope, leaf.to, chain, levels);
    if to.Err? {
      return Err(to.error);
    }
    var within := Resolve(scope, leaf.within, chain, levels);
    if within.Err? {
      return Err(within.error);
    }
    if * {
      return Err(UnarmedLanguage);
    }
    var outer := within.value.0;
    if from.value.0.start < outer.start || outer.end < from.value.0.end
       || to.value.0.start < outer.start || outer.end < to.value.0.end {
      return Err(OutsideWithin);
    }
    if within.value.1.None? {
      return Err(WithinNotANode);
    }
    var verdict: bool := *;
    return Ok(verdict);
  }

  // ----- binding a handle -----

  lemma ExportedInjective(handle: bytes, a: bytes, b: bytes)
    requires Exported(handle, a) == Exported(handle, b)
    ensures a == b
  {
    assert Exported(handle, a)[|handle| + 1..] == a && Exported(handle, b)[|handle| + 1..] == b;
  }

  function Only(m: map<bytes, Capture>, names: set<bytes>): map<bytes, Capture> {
    map k | k in m && k in names :: m[k]
  }

  lemma NothingExported(m: map<bytes, Capture>, handle: bytes, self: Capture, sub: map<bytes, Capture>)
    ensures Cleared(m, handle)[handle := self] == WithBinding(m, Binding(handle, self, Only(sub, {})))
  {
    assert ExportedAll(handle, Only(sub, {}).Keys) == {};
  }

  lemma OneMoreExported(m: map<bytes, Capture>, handle: bytes, self: Capture, sub: map<bytes, Capture>,
          done: set<bytes>, k: bytes)
    requires k in sub
    ensures WithBinding(m, Binding(handle, self, Only(sub, done)))[Exported(handle, k) := sub[k]]
         == WithBinding(m, Binding(handle, self, Only(sub, done + {k})))
  {
    var a, b := Only(sub, done), Only(sub, done + {k});
    assert b == a[k := sub[k]];
    ExportedAllOne(handle, a.Keys, k);
    assert b.Keys == a.Keys + {k};
    hide ExportedAll, Cleared;
    assert Exported(handle, k)[|handle| + 1..] == k && handle + [DOT] <= Exported(handle, k);
  }

  lemma ExportedAllOne(handle: bytes, names: set<bytes>, k: bytes)
    ensures ExportedAll(handle, names + {k}) == ExportedAll(handle, names) + {Exported(handle, k)}
  {
  }

  /** Binds the handle, exports every capture of the sub-match under it, and clears what an earlier leaf of
      the same handle exported. */
  method BindAs(scope: Scope, handle: bytes, self: Capture, node: nat, captures: map<bytes, Capture>,
          nodes: map<bytes, nat>)
    modifies scope
    ensures handle == [] ==> scope.captures == old(scope.captures) && scope.log == old(scope.log)
    ensures handle != [] ==>
      var b := Binding(handle, self, captures);
      scope.captures == WithBinding(old(scope.captures), b) && scope.log == old(scope.log) + [b]
  {
    if handle == [] {
      return;
    }
    hide WithBinding, Cleared;
    ghost var before, log := scope.captures, scope.log;
    NothingExported(before, handle, self, captures);
    ClearNamespace(scope, handle);
    scope.captures := scope.captures[handle := self];
    scope.nodes := scope.nodes[handle := node];
    ExportNamespace(scope, handle, captures, nodes, before, self);
    scope.log := log + [Binding(handle, self, captures)];
  }

  method ClearNamespace(scope: Scope, handle: bytes)
    modifies scope
    ensures scope.captures == Cleared(old(scope.captures), handle)
  {
    scope.captures := Cleared(scope.captures, handle);
    scope.nodes := map k | k in scope.nodes && !(handle + [DOT] <= k) :: scope.nodes[k];
  }

  method ExportNamespace(scope: Scope, handle: bytes, captures: map<bytes, Capture>, nodes: map<bytes, nat>,
          ghost before: map<bytes, Capture>, ghost self: Capture)
    requires scope.captures == WithBinding(before, Binding(handle, self, Only(captures, {})))
    modifies scope
    ensures scope.captures == WithBinding(before, Binding(handle, self, captures))
  {
    hide WithBinding, Exported;
    var todo := captures.Keys;
    ghost var done: set<bytes> := {};
    while todo != {}
      invariant todo <= captures.Keys && todo + done == captures.Keys
      invariant scope.captures == WithBinding(before, Binding(handle, self, Only(captures, done)))
      decreases |todo|
    {
      var k :| k in todo;
      OneMoreExported(before, handle, self, captures, done, k);
      todo, done := todo - {k}, done + {k};
      scope.captures := scope.captures[Exported(handle, k) := captures[k]];
      if k in nodes {
        scope.nodes := scope.nodes[Exported(handle, k) := nodes[k]];
      }
    }
    assert Only(captures, done) == captures;
  }

  /** Binding a handle removes no name a match binds and adds no key the leaf does not export. */
  lemma BoundStillKeyed(before: map<bytes, Capture>, b: Binding, level: Level)
    requires Keyed(before, level) && b.handle != [] && Writes(b) <= level.exports
    ensures Keyed(WithBinding(before, b), level)
  {
    hide Writes;
    assert b.handle in Writes(b) by { BindingWritesHandle(b); }
    forall n | n in level.base ensures n in WithBinding(before, b) {
      assert DOT !in n;
      assert (b.handle + [DOT])[|b.handle|] == DOT;
    }
  }

  lemma BindingWritesHandle(b: Binding)
    ensures b.handle in Writes(b)
  {
  }

  lemma LeafWrites(leaf: SubPattern, b: Binding, exports: set<bytes>)
    requires LeafExports(Some(leaf)) <= exports && leaf.handle != [] && b.handle == leaf.handle
    requires b.sub.Keys <= Base(leaf.pattern) + if leaf.where.Some? then Exports(leaf.where.value) else {}
    ensures Writes(b) <= exports
  {
    hide Base, Exports;
    forall n | n in Writes(b) ensures n in LeafExports(Some(leaf)) {
    }
  }

  lemma ReplayOneMore(m: map<bytes, Capture>, log: seq<Binding>, b: Binding)
    ensures Replay(m, log + [b]) == WithBinding(Replay(m, log), b)
  {
    hide WithBinding;
    assert (log + [b])[..|log|] == log;
  }

  // ----- names carry no dot -----

  lemma {:induction false} TokensFit(s: bytes, i: nat)
    requires i <= |s| && LexAll(s, i).Ok?
    ensures forall t | t in LexAll(s, i).value :: NameFits(t)
    decreases |s| - i
  {
    hide Lex, NameFits;
    if i < |s| {
      if s[i] != DOLLAR {
        TokensFit(s, i + 1);
      } else {
        var t := Lex(s, i).value;
        LexIsSpelled(s, t);
        TokensFit(s, t.end);
      }
    }
  }

  lemma NameIsDotless(t: Token)
    requires NameFits(t)
    ensures DOT !in t.name
  {
  }

  lemma NamesAreDotless(ts: seq<Token>)
    requires forall t | t in ts :: NameFits(t)
    ensures Dotless(NamesOfTokens(ts))
  {
    hide NameFits;
    forall n | n in NamesOfTokens(ts) ensures DOT !in n {
      var t :| t in ts && t.name == n;
      NameIsDotless(t);
    }
  }

  /** A placeholder name is an identifier, so it never looks like a key exported under a handle. */
  lemma BaseIsDotless(pattern: bytes)
    ensures Dotless(Base(pattern))
  {
    hide Trim, LexAll, NameFits, NamesOfTokens;
    if ParsePattern(pattern).Ok? {
      TokensFit(pattern, 0);
      NamesAreDotless(ParsePattern(pattern).value);
    }
  }

  // ----- the tree -----

  /** What evaluating a tree node relies on: the check accepted the node at these levels. */
  ghost predicate Fit(w: WhereNode, scope: Scope, chain: seq<Scope>, levels: seq<Level>) {
    && Chain(chain) && chain[0] == scope && |levels| == |chain|
    && RefsOk(w, levels) && NestedOk(w, levels) && Exports(w) <= levels[0].exports
  }

  /** An unresolved capture is a handle, at this level or at one nested in the tree. */
  ghost predicate Explained(r: Result<bool, Fault>, w: WhereNode, levels: seq<Level>, at: seq<Level>) {
    r.Err? && r.error.Unresolved? ==> Arises(w, levels, at) && NamesOnlyHandle(at, r.error.ref)
  }

  ghost predicate ExplainedIn(r: Result<bool, Fault>, leaf: SubPattern, levels: seq<Level>, at: seq<Level>) {
    r.Err? && r.error.Unresolved? ==> (at == levels || ArisesIn(leaf, levels, at)) && NamesOnlyHandle(at, r.error.ref)
  }

  lemma {:induction false} ExportsOfOne(ws: seq<WhereNode>, i: nat)
    requires i < |ws|
    ensures Exports(ws[i]) <= AllExports(ws)
    decreases i
  {
    hide Exports;
    if i > 0 {
      ExportsOfOne(ws[1..], i - 1);
    }
  }

  lemma FitChildren(w: WhereNode, scope: Scope, chain: seq<Scope>, levels: seq<Level>)
    requires Fit(w, scope, chain, levels)
    ensures forall i | 0 <= i < |w.all| :: Fit(w.all[i], scope, chain, levels)
    ensures forall i | 0 <= i < |w.any| :: Fit(w.any[i], scope, chain, levels)
    ensures w.negated.Some? ==> Fit(w.negated.value, scope, chain, levels)
  {
    hide Chain, LeafOk, LeafExports, AllExports, AllRefsOk, OwnRefs;
    forall i | 0 <= i < |w.all| ensures Fit(w.all[i], scope, chain, levels) {
      ExportsOfOne(w.all, i);
    }
    forall i | 0 <= i < |w.any| ensures Fit(w.any[i], scope, chain, levels) {
      ExportsOfOne(w.any, i);
    }
  }

  /** The references and nested trees of the node's own leaves are accepted. */
  lemma FitLeaves(w: WhereNode, scope: Scope, chain: seq<Scope>, levels: seq<Level>)
    requires Fit(w, scope, chain, levels)
    ensures AllRefsOk(levels, OwnRefs(w))
    ensures SubsFit(w, scope, chain, levels)
  {
    hide Chain, LeafExports, LeafOk, RefOk, AllExports;
    if w.inside.Some? {
      assert w.inside.value.of in SubRef(w.inside) && w.inside.value.of in OwnRefs(w);
    }
    if w.contains.Some? {
      assert w.contains.value.of in SubRef(w.contains) && w.contains.value.of in OwnRefs(w);
    }
  }

  ghost predicate LeafFit(leaf: SubPattern, scope: Scope, chain: seq<Scope>, levels: seq<Level>) {
    && Chain(chain) && chain[0] == scope && |levels| == |chain|
    && RefOk(levels, leaf.of) && LeafOk(leaf, levels) && LeafExports(Some(leaf)) <= levels[0].exports
  }

  lemma LocalRefs(w: WhereNode, levels: seq<Level>)
    requires AllRefsOk(levels, OwnRefs(w))
    ensures w.kind.Some? ==> RefOk(levels, w.kind.value)
    ensures w.matches.Some? ==> RefOk(levels, w.matches.value)
    ensures w.equals.Some? ==> RefOk(levels, w.equals.value)
    ensures w.sameNode.Some? ==> AllRefsOk(levels, w.sameNode.value)
    ensures w.sameText.Some? ==> AllRefsOk(levels, w.sameText.value)
    ensures w.flows.Some? ==> RefOk(levels, w.flows.value.from) && RefOk(levels, w.flows.value.to) && RefOk(levels, w.flows.value.within)
  {
    hide RefOk;
    assert forall r | r in FlowRefs(w.flows) :: r in OwnRefs(w);
    if w.flows.Some? {
      var refs := FlowRefs(w.flows);
      assert refs[0] == w.flows.value.from && refs[1] == w.flows.value.to && refs[2] == w.flows.value.within;
    }
    assert forall r | r in OptRef(w.kind) || r in OptRef(w.matches) || r in OptRef(w.equals) :: r in OwnRefs(w);
    assert forall r | r in OptRefs(w.sameNode) || r in OptRefs(w.sameText) :: r in OwnRefs(w);
  }

  lemma ExplainedUp(r: Result<bool, Fault>, child: WhereNode, w: WhereNode, levels: seq<Level>,
          at: seq<Level>)
    requires Explained(r, child, levels, at)
    requires child in w.all || child in w.any || w.negated == Some(child)
    ensures Explained(r, w, levels, at)
  {
    hide NamesOnlyHandle, ArisesIn;
  }

  lemma ExplainedUpLeaf(r: Result<bool, Fault>, leaf: SubPattern, w: WhereNode,
          levels: seq<Level>, at: seq<Level>)
    requires ExplainedIn(r, leaf, levels, at) && (w.inside == Some(leaf) || w.contains == Some(leaf))
    ensures Explained(r, w, levels, at)
  {
    hide NamesOnlyHandle, ArisesIn;
  }

  lemma BlamedIsExplained(r: Result<bool, Fault>, w: WhereNode, levels: seq<Level>)
    requires Blames(r, levels)
    ensures Explained(r, w, levels, levels)
  {
    hide NamesOnlyHandle, ArisesIn;
  }

  lemma AnswerBlamesNothing(b: bool, levels: seq<Level>)
    ensures Blames(Ok(b), levels)
  {
  }

  // ----- what the composers make of the verdicts -----

  type Verdict = Result<bool, Fault>

  /** A record of one evaluation: the children and leaves evaluated, in order, what the node's own leaves bound,
      and the result. */
  datatype Run = Run(all: seq<Run>, any: seq<Run>, negated: Option<Run>, leaves: seq<Verdict>, binds: seq<Binding>,
                     result: Verdict)

  /** Every binding of the evaluation, in order. */
  function Log(run: Run): seq<Binding>
    decreases run, 1
  {
    LogAll(run.all) + LogAll(run.any) + (if run.negated.Some? then Log(run.negated.value) else []) + run.binds
  }

  function LogAll(runs: seq<Run>): seq<Binding>
    decreases runs, 0
  {
    if runs == [] then [] else LogAll(runs[..|runs| - 1]) + Log(runs[|runs| - 1])
  }

  function ResultsOf(runs: seq<Run>): seq<Verdict> {
    seq(|runs|, i requires 0 <= i < |runs| => runs[i].result)
  }

  /** Up to `n` were evaluated, each but the last giving `go`, and stopping early only on something else. */
  predicate InTurn(rs: seq<Verdict>, n: nat, go: Verdict) {
    && |rs| <= n
    && (forall i | 0 <= i < |rs| - 1 :: rs[i] == go)
    && (|rs| < n ==> rs != [] && rs[|rs| - 1] != go)
  }

  function LastOf(rs: seq<Verdict>, go: Verdict): Verdict {
    if rs == [] then go else rs[|rs| - 1]
  }

  /** How many leaves the node itself carries. */
  function LeafCount(w: WhereNode): nat {
    LocalCount(w) + WalkingCount(w)
  }

  function One<T>(o: Option<T>): nat {
    if o.Some? then 1 else 0
  }

  function LocalCount(w: WhereNode): nat {
    TextCount(w) + SameCount(w)
  }

  function TextCount(w: WhereNode): nat {
    One(w.kind) + One(w.matches) + One(w.equals)
  }

  function SameCount(w: WhereNode): nat {
    One(w.sameNode) + One(w.sameText)
  }

  function WalkingCount(w: WhereNode): nat {
    SubCount(w) + One(w.flows)
  }

  function SubCount(w: WhereNode): nat {
    One(w.inside) + One(w.contains)
  }

  function HandlesOf(binds: seq<Binding>): seq<bytes> {
    seq(|binds|, i requires 0 <= i < |binds| => binds[i].handle)
  }

  /** The handle a sub-pattern leaf binds when its verdict is the `i`-th: it must have held and have a handle. */
  function HeldHandle(o: Option<SubPattern>, leaves: seq<Verdict>, i: nat): seq<bytes> {
    if o.Some? && i < |leaves| && leaves[i] == Ok(true) && o.value.handle != [] then [o.value.handle] else []
  }

  /** The bindings are those of the sub-pattern leaves that held, the inner one's first. */
  predicate WalkBinds(w: WhereNode, walk: seq<Verdict>, binds: seq<Binding>) {
    HandlesOf(binds) == HeldHandle(w.inside, walk, 0) + HeldHandle(w.contains, walk, One(w.inside))
  }

  /** The same of all the node's leaves, the local ones ahead of the walking ones. */
  predicate OwnBinds(w: WhereNode, leaves: seq<Verdict>, binds: seq<Binding>) {
    if |leaves| < LocalCount(w) then binds == [] else WalkBinds(w, leaves[LocalCount(w)..], binds)
  }

  /** The result is what the composers and the leaves of the node make of the verdicts recorded, and the
      bindings are those of its leaves that held. */
  ghost predicate Composes(w: WhereNode, run: Run) {
    var all, any := ResultsOf(run.all), ResultsOf(run.any);
    && InTurn(all, |w.all|, Ok(true))
    && if LastOf(all, Ok(true)) != Ok(true) then
         run == Run(run.all, [], None, [], [], LastOf(all, Ok(true)))
       else
         && InTurn(any, |w.any|, Ok(false))
         && if w.any != [] && LastOf(any, Ok(false)) != Ok(true) then
              run == Run(run.all, run.any, None, [], [], LastOf(any, Ok(false)))
            else
              && (run.negated.Some? <==> w.negated.Some?)
              && if run.negated.Some? && run.negated.value.result != Ok(false) then
                   run.leaves == [] && run.binds == [] && run.result == Refuted(run.negated.value.result)
                 else
                   && InTurn(run.leaves, LeafCount(w), Ok(true)) && run.result == LastOf(run.leaves, Ok(true))
                   && OwnBinds(w, run.leaves, run.binds)
  }

  /** A negated child that held makes the node fail; its error is the node's. */
  function Refuted(r: Verdict): Verdict {
    if r.Err? then r else Ok(false)
  }

  /** Every node of the evaluation composes its own verdicts. */
  ghost predicate Means(w: WhereNode, run: Run)
    decreases w
  {
    && Composes(w, run)
    && (forall i | 0 <= i < |w.all| && i < |run.all| :: Means(w.all[i], run.all[i]))
    && (forall i | 0 <= i < |w.any| && i < |run.any| :: Means(w.any[i], run.any[i]))
    && (w.negated.Some? && run.negated.Some? ==> Means(w.negated.value, run.negated.value))
  }

  ghost predicate AllMean(ws: seq<WhereNode>, runs: seq<Run>) {
    forall i | 0 <= i < |ws| && i < |runs| :: Means(ws[i], runs[i])
  }

  /** An evaluation that ends without error is true exactly when every `all` child and every leaf was, some
      `any` child was if there are any, and the negated child was not. */
  lemma TrueIffComposersHold(w: WhereNode, run: Run)
    requires Composes(w, run) && run.result.Ok?
    ensures run.result == Ok(true) <==>
              && |run.all| == |w.all| && (forall i | 0 <= i < |run.all| :: run.all[i].result == Ok(true))
              && (w.any != [] ==> exists i | 0 <= i < |run.any| :: run.any[i].result == Ok(true))
              && (w.negated.Some? ==> run.negated.Some? && run.negated.value.result == Ok(false))
              && |run.leaves| == LeafCount(w) && (forall i | 0 <= i < |run.leaves| :: run.leaves[i] == Ok(true))
  {
    hide LeafCount, OwnBinds;
    var all, any := ResultsOf(run.all), ResultsOf(run.any);
    assert forall i | 0 <= i < |run.all| :: run.all[i].result == all[i];
    assert forall i | 0 <= i < |run.any| :: run.any[i].result == any[i];
  }

  lemma OneMore(rs: seq<Verdict>, r: Verdict, n: nat, go: Verdict)
    requires |rs| < n && (forall i | 0 <= i < |rs| :: rs[i] == go)
    ensures LastOf(rs + [r], go) == r
    ensures r != go ==> InTurn(rs + [r], n, go)
    ensures r == go ==> forall i | 0 <= i < |rs + [r]| :: (rs + [r])[i] == go
  {
  }

  lemma AllDone(rs: seq<Verdict>, n: nat, go: Verdict)
    requires |rs| == n && forall i | 0 <= i < |rs| :: rs[i] == go
    ensures InTurn(rs, n, go) && LastOf(rs, go) == go
  {
  }

  lemma ResultsMore(runs: seq<Run>, run: Run)
    ensures ResultsOf(runs + [run]) == ResultsOf(runs) + [run.result]
  {
  }

  lemma NoResults()
    ensures ResultsOf([]) == []
  {
  }

  /** Evaluates children in order as long as they answer `go`. */
  method EvalInTurn(w: WhereNode, ws: seq<WhereNode>, go: bool, scope: Scope, ghost chain: seq<Scope>, ghost levels: seq<Level>)
    returns (r: Verdict, ghost at: seq<Level>, ghost runs: seq<Run>)
    requires Fit(w, scope, chain, levels) && AllHold(chain, levels) && (ws == w.all || ws == w.any)
    modifies scope
    ensures AllHold(chain, levels) && Explained(r, w, levels, at)
    ensures AllMean(ws, runs) && InTurn(ResultsOf(runs), |ws|, Ok(go)) && r == LastOf(ResultsOf(runs), Ok(go))
    ensures scope.log == old(scope.log) + LogAll(runs)
    decreases w, 1
  {
    hide *;
    FitChildren(w, scope, chain, levels);
    at, runs := levels, [];
    NoResults();
    NoneMean(ws);
    NothingLogged(scope.log);
    AnswerBlamesNothing(go, levels);
    BlamedIsExplained(Ok(go), w, levels);
    for i := 0 to |ws|
      invariant AllHold(chain, levels)
      invariant |runs| == |ResultsOf(runs)| == i && AllMean(ws, runs)
      invariant scope.log == old(scope.log) + LogAll(runs)
      invariant forall j | 0 <= j < i :: ResultsOf(runs)[j] == Ok(go)
    {
      ghost var run;
      ghost var before := runs;
      r, at, run := EvalWhere(ws[i], scope, chain, levels);
      ExplainedUp(r, ws[i], w, levels, at);
      ResultsMore(before, run);
      OneMore(ResultsOf(before), r, |ws|, Ok(go));
      MeansMore(ws, before, run);
      LogMore(old(scope.log), before, run);
      runs := before + [run];
      if r != Ok(go) {
        return;
      }
    }
    AllDone(ResultsOf(runs), |ws|, Ok(go));
    return Ok(go), levels, runs;
  }

  lemma NothingLogged(log: seq<Binding>)
    ensures log == log + LogAll([])
  {
  }

  lemma LogMore(log: seq<Binding>, runs: seq<Run>, run: Run)
    ensures log + LogAll(runs) + Log(run) == log + LogAll(runs + [run])
  {
    hide Log;
    assert (runs + [run])[..|runs|] == runs;
  }

  lemma NoneMean(ws: seq<WhereNode>)
    ensures AllMean(ws, [])
  {
  }

  lemma MeansMore(ws: seq<WhereNode>, runs: seq<Run>, run: Run)
    requires AllMean(ws, runs) && |runs| < |ws| && Means(ws[|runs|], run)
    ensures AllMean(ws, runs + [run])
  {
    hide Means;
  }

  /** Evaluates the tree: all children, then any, then the negated one, then the leaves, each only when the
      ones before let it. */
  method EvalWhere(w: WhereNode, scope: Scope, ghost chain: seq<Scope>, ghost levels: seq<Level>)
    returns (r: Verdict, ghost at: seq<Level>, ghost run: Run)
    requires Fit(w, scope, chain, levels) && AllHold(chain, levels)
    modifies scope
    ensures AllHold(chain, levels) && Explained(r, w, levels, at)
    ensures Means(w, run) && run.result == r && scope.log == old(scope.log) + Log(run)
    decreases w, 2
  {
    hide *;
    ghost var all;
    ghost var any: seq<Run>, negated: Option<Run> := [], None;
    r, at, all := EvalInTurn(w, w.all, true, scope, chain, levels);
    if r != Ok(true) {
      run := Run(all, [], None, [], [], r);
      StoppedInAll(w, run);
      LogOf(old(scope.log), run, LogAll(all), LogAll([]), [], []);
      return;
    }
    NothingInTurn(w);
    if w.any != [] {
      r, at, any := EvalInTurn(w, w.any, false, scope, chain, levels);
      if r != Ok(true) {
        run := Run(all, any, None, [], [], r);
        StoppedInAny(w, run);
        LogOf(old(scope.log), run, LogAll(all), LogAll(any), [], []);
        return;
      }
    }
    NothingLoggedYet(old(scope.log), all, any);
    if w.negated.Some? {
      ghost var child;
      FitChildren(w, scope, chain, levels);
      r, at, child := EvalWhere(w.negated.value, scope, chain, levels);
      if r != Ok(false) {
        run := Run(all, any, Some(child), [], [], Refuted(r));
        StoppedInNot(w, run);
        RefutedExplained(r, w, levels, at);
        LogOf(old(scope.log), run, LogAll(all), LogAll(any), Log(child), []);
        r := if r.Err? then r else Ok(false);
        return;
      }
      negated := Some(child);
    }
    ghost var leaves, binds;
    r, at, leaves, binds := EvalLeaves(w, scope, chain, levels);
    run := Run(all, any, negated, leaves, binds, r);
    ReachedLeaves(w, run);
    LogOf(old(scope.log), run, LogAll(all), LogAll(any), if negated.Some? then Log(negated.value) else [], binds);
  }

  lemma NothingLoggedYet(log: seq<Binding>, all: seq<Run>, any: seq<Run>)
    ensures any == [] ==> log + LogAll(all) == log + LogAll(all) + LogAll(any)
  {
  }

  lemma LogOf(log: seq<Binding>, run: Run, all: seq<Binding>, any: seq<Binding>, negated: seq<Binding>, own: seq<Binding>)
    requires all == LogAll(run.all) && any == LogAll(run.any) && own == run.binds
    requires negated == if run.negated.Some? then Log(run.negated.value) else []
    ensures log + all + any + negated + own == log + Log(run)
    ensures run.any == [] && negated == own == [] ==> log + all == log + Log(run)
    ensures negated == own == [] ==> log + all + any == log + Log(run)
    ensures own == [] ==> log + all + any + negated == log + Log(run)
    ensures negated == [] ==> log + all + any + own == log + Log(run)
  {
    assert log + all + any + negated + own == log + (all + any + negated + own);
    assert log + all + [] == log + all;
    assert log + all + any + [] == log + all + any;
    assert log + all + any + negated + [] == log + all + any + negated;
  }

  lemma NothingInTurn(w: WhereNode)
    ensures AllMean(w.any, []) && (w.any == [] ==> InTurn(ResultsOf([]), |w.any|, Ok(false)))
  {
  }

  lemma StoppedInAll(w: WhereNode, run: Run)
    requires AllMean(w.all, run.all) && InTurn(ResultsOf(run.all), |w.all|, Ok(true))
    requires run == Run(run.all, [], None, [], [], LastOf(ResultsOf(run.all), Ok(true))) && run.result != Ok(true)
    ensures Means(w, run)
  {
    hide InTurn, LastOf, ResultsOf;
  }

  lemma StoppedInAny(w: WhereNode, run: Run)
    requires AllMean(w.all, run.all) && InTurn(ResultsOf(run.all), |w.all|, Ok(true))
    requires LastOf(ResultsOf(run.all), Ok(true)) == Ok(true)
    requires AllMean(w.any, run.any) && InTurn(ResultsOf(run.any), |w.any|, Ok(false)) && w.any != []
    requires run == Run(run.all, run.any, None, [], [], LastOf(ResultsOf(run.any), Ok(false))) && run.result != Ok(true)
    ensures Means(w, run)
  {
    hide InTurn, LastOf, ResultsOf;
  }

  lemma StoppedInNot(w: WhereNode, run: Run)
    requires AllMean(w.all, run.all) && InTurn(ResultsOf(run.all), |w.all|, Ok(true))
    requires LastOf(ResultsOf(run.all), Ok(true)) == Ok(true)
    requires AllMean(w.any, run.any) && InTurn(ResultsOf(run.any), |w.any|, Ok(false))
    requires w.any != [] ==> LastOf(ResultsOf(run.any), Ok(false)) == Ok(true)
    requires w.negated.Some? && run.negated.Some? && Means(w.negated.value, run.negated.value)
    requires run.negated.value.result != Ok(false) && run.leaves == [] && run.binds == []
    requires run.result == Refuted(run.negated.value.result)
    ensures Means(w, run) && run.result == if run.negated.value.result.Err? then run.negated.value.result else Ok(false)
  {
    hide InTurn, LastOf, ResultsOf;
  }

  lemma ReachedLeaves(w: WhereNode, run: Run)
    requires AllMean(w.all, run.all) && InTurn(ResultsOf(run.all), |w.all|, Ok(true))
    requires LastOf(ResultsOf(run.all), Ok(true)) == Ok(true)
    requires AllMean(w.any, run.any) && InTurn(ResultsOf(run.any), |w.any|, Ok(false))
    requires w.any != [] ==> LastOf(ResultsOf(run.any), Ok(false)) == Ok(true)
    requires w.negated.Some? <==> run.negated.Some?
    requires w.negated.Some? ==> Means(w.negated.value, run.negated.value) && run.negated.value.result == Ok(false)
    requires Evaluated(run.leaves, LeafCount(w), run.result) && OwnBinds(w, run.leaves, run.binds)
    ensures Means(w, run)
  {
    hide InTurn, LastOf, ResultsOf, LeafCount, OwnBinds;
  }

  lemma RefutedExplained(r: Verdict, w: WhereNode, levels: seq<Level>, at: seq<Level>)
    requires w.negated.Some? && Explained(r, w.negated.value, levels, at)
    ensures Explained(if r.Err? then r else Ok(false), w, levels, at)
  {
    ExplainedUp(r, w.negated.value, w, levels, at);
  }

  method EvalLeaves(w: WhereNode, scope: Scope, ghost chain: seq<Scope>, ghost levels: seq<Level>)
    returns (r: Verdict, ghost at: seq<Level>, ghost leaves: seq<Verdict>, ghost binds: seq<Binding>)
    requires Fit(w, scope, chain, levels) && AllHold(chain, levels)
    modifies scope
    ensures AllHold(chain, levels) && Explained(r, w, levels, at) && Evaluated(leaves, LeafCount(w), r)
    ensures scope.log == old(scope.log) + binds && OwnBinds(w, leaves, binds)
    decreases w, 1
  {
    FitFacts(w, scope, chain, levels);
    hide *;
    FitLeaves(w, scope, chain, levels);
    r, leaves := EvalLocalLeaves(w, scope, chain, levels);
    at, binds := levels, [];
    if r != Ok(true) {
      BlamedIsExplained(r, w, levels);
      StoppedEarly(leaves, LocalCount(w), LeafCount(w), r);
      NothingBoundLocally(w, leaves, r);
      return;
    }
    ghost var rest;
    r, at, rest, binds := EvalWalkingLeaves(w, scope, chain, levels);
    LeavesCounted(w);
    EvaluatedJoined(leaves, LocalCount(w), rest, WalkingCount(w), r);
    BoundWalking(w, leaves, rest, binds);
    leaves := leaves + rest;
  }

  lemma EvaluatedJoined(a: seq<Verdict>, n: nat, b: seq<Verdict>, m: nat, r: Verdict)
    requires Evaluated(a, n, Ok(true)) && Evaluated(b, m, r)
    ensures Evaluated(a + b, n + m, r)
  {
    hide InTurn, LastOf;
    LeavesJoined(a, n, b, m);
  }

  lemma NothingBoundLocally(w: WhereNode, leaves: seq<Verdict>, r: Verdict)
    requires Evaluated(leaves, LocalCount(w), r)
    ensures OwnBinds(w, leaves, [])
  {
    hide LocalCount;
    if |leaves| >= LocalCount(w) {
      assert leaves[LocalCount(w)..] == [];
    }
  }

  lemma BoundWalking(w: WhereNode, local: seq<Verdict>, walk: seq<Verdict>, binds: seq<Binding>)
    requires Evaluated(local, LocalCount(w), Ok(true)) && WalkBinds(w, walk, binds)
    ensures OwnBinds(w, local + walk, binds)
  {
    hide LocalCount, WalkBinds;
    assert (local + walk)[LocalCount(w)..] == walk;
  }

  lemma FitFacts(w: WhereNode, scope: Scope, chain: seq<Scope>, levels: seq<Level>)
    requires Fit(w, scope, chain, levels)
    ensures ReadyLeaves(w, scope, chain, levels) && LocalCount(w) <= LeafCount(w)
  {
  }

  lemma LeavesCounted(w: WhereNode)
    ensures LeafCount(w) == LocalCount(w) + WalkingCount(w)
  {
  }

  lemma MoreLeaves(rs: seq<Verdict>, n: nat, m: nat)
    requires InTurn(rs, n, Ok(true)) && LastOf(rs, Ok(true)) != Ok(true) && n <= m
    ensures InTurn(rs, m, Ok(true))
  {
  }

  lemma LeavesJoined(a: seq<Verdict>, n: nat, b: seq<Verdict>, m: nat)
    requires InTurn(a, n, Ok(true)) && LastOf(a, Ok(true)) == Ok(true) && InTurn(b, m, Ok(true))
    ensures InTurn(a + b, n + m, Ok(true)) && LastOf(a + b, Ok(true)) == LastOf(b, Ok(true))
  {
  }

  /** A leaf that is there gives one verdict, a missing one none. */
  ghost predicate Gives<T>(o: Option<T>, r: Verdict, leaves: seq<Verdict>) {
    if o.Some? then leaves == [r] else leaves == [] && r == Ok(true)
  }

  lemma GivesInTurn<T>(o: Option<T>, r: Verdict, leaves: seq<Verdict>)
    requires Gives(o, r, leaves)
    ensures InTurn(leaves, One(o), Ok(true)) && r == LastOf(leaves, Ok(true))
  {
  }

  /** `leaves` is the evaluation of `n` leaves so far, all of which held unless `r` says otherwise. */
  ghost predicate Evaluated(leaves: seq<Verdict>, n: nat, r: Verdict) {
    InTurn(leaves, n, Ok(true)) && r == LastOf(leaves, Ok(true))
  }

  lemma NextLeaf<T>(leaves: seq<Verdict>, n: nat, o: Option<T>, r: Verdict, more: seq<Verdict>)
    requires Evaluated(leaves, n, Ok(true)) && Gives(o, r, more)
    ensures Evaluated(leaves + more, n + One(o), r)
  {
    hide InTurn, LastOf, Gives, One;
    GivesInTurn(o, r, more);
    LeavesJoined(leaves, n, more, One(o));
  }

  lemma StoppedEarly(leaves: seq<Verdict>, n: nat, m: nat, r: Verdict)
    requires Evaluated(leaves, n, r) && r != Ok(true) && n <= m
    ensures Evaluated(leaves, m, r)
  {
    hide InTurn, LastOf;
    MoreLeaves(leaves, n, m);
  }

  method EvalOf(o: Option<bytes>, regex: bool, scope: Scope, ghost chain: seq<Scope>, ghost levels: seq<Level>)
    returns (r: Verdict, ghost leaves: seq<Verdict>)
    requires Chain(chain) && chain[0] == scope && AllHold(chain, levels) && (o.Some? ==> RefOk(levels, o.value))
    ensures Blames(r, levels) && Gives(o, r, leaves)
  {
    hide RefOk, Chain, AllHold, NamesOnlyHandle;
    if o.None? {
      return Ok(true), [];
    }
    if regex {
      r := EvalMatches(scope, o.value, chain, levels);
    } else {
      r := EvalOne(scope, o.value, chain, levels);
    }
    leaves := [r];
  }

  method EvalRefs(o: Option<seq<bytes>>, scope: Scope, ghost chain: seq<Scope>, ghost levels: seq<Level>)
    returns (r: Verdict, ghost leaves: seq<Verdict>)
    requires Chain(chain) && chain[0] == scope && AllHold(chain, levels) && (o.Some? ==> AllRefsOk(levels, o.value))
    ensures Blames(r, levels) && Gives(o, r, leaves)
  {
    hide AllRefsOk, Chain, AllHold, NamesOnlyHandle;
    if o.None? {
      return Ok(true), [];
    }
    r := EvalSame(scope, o.value, chain, levels);
    leaves := [r];
  }

  /** The references of the node's leaves are accepted, and the chain is its scope's. */
  ghost predicate ReadyLeaves(w: WhereNode, scope: Scope, chain: seq<Scope>, levels: seq<Level>) {
    Chain(chain) && chain[0] == scope && |chain| == |levels| && AllRefsOk(levels, OwnRefs(w))
  }

  method EvalKindLeaf(w: WhereNode, scope: Scope, ghost chain: seq<Scope>, ghost levels: seq<Level>)
    returns (r: Verdict, ghost leaves: seq<Verdict>)
    requires ReadyLeaves(w, scope, chain, levels) && AllHold(chain, levels)
    ensures Blames(r, levels) && Gives(w.kind, r, leaves)
  {
    LocalRefs(w, levels);
    hide RefOk, AllRefsOk, OwnRefs, Chain, AllHold, Blames, Gives;
    r, leaves := EvalOf(w.kind, false, scope, chain, levels);
  }

  method EvalMatchesLeaf(w: WhereNode, scope: Scope, ghost chain: seq<Scope>, ghost levels: seq<Level>)
    returns (r: Verdict, ghost leaves: seq<Verdict>)
    requires ReadyLeaves(w, scope, chain, levels) && AllHold(chain, levels)
    ensures Blames(r, levels) && Gives(w.matches, r, leaves)
  {
    LocalRefs(w, levels);
    hide RefOk, AllRefsOk, OwnRefs, Chain, AllHold, Blames, Gives;
    r, leaves := EvalOf(w.matches, true, scope, chain, levels);
  }

  method EvalEqualsLeaf(w: WhereNode, scope: Scope, ghost chain: seq<Scope>, ghost levels: seq<Level>)
    returns (r: Verdict, ghost leaves: seq<Verdict>)
    requires ReadyLeaves(w, scope, chain, levels) && AllHold(chain, levels)
    ensures Blames(r, levels) && Gives(w.equals, r, leaves)
  {
    LocalRefs(w, levels);
    hide RefOk, AllRefsOk, OwnRefs, Chain, AllHold, Blames, Gives;
    r, leaves := EvalOf(w.equals, false, scope, chain, levels);
  }

  method EvalSameNodeLeaf(w: WhereNode, scope: Scope, ghost chain: seq<Scope>, ghost levels: seq<Level>)
    returns (r: Verdict, ghost leaves: seq<Verdict>)
    requires ReadyLeaves(w, scope, chain, levels) && AllHold(chain, levels)
    ensures Blames(r, levels) && Gives(w.sameNode, r, leaves)
  {
    LocalRefs(w, levels);
    hide RefOk, AllRefsOk, OwnRefs, Chain, AllHold, Blames, Gives;
    r, leaves := EvalRefs(w.sameNode, scope, chain, levels);
  }

  method EvalSameTextLeaf(w: WhereNode, scope: Scope, ghost chain: seq<Scope>, ghost levels: seq<Level>)
    returns (r: Verdict, ghost leaves: seq<Verdict>)
    requires ReadyLeaves(w, scope, chain, levels) && AllHold(chain, levels)
    ensures Blames(r, levels) && Gives(w.sameText, r, leaves)
  {
    LocalRefs(w, levels);
    hide RefOk, AllRefsOk, OwnRefs, Chain, AllHold, Blames, Gives;
    r, leaves := EvalRefs(w.sameText, scope, chain, levels);
  }

  method EvalFlowLeaf(w: WhereNode, scope: Scope, ghost chain: seq<Scope>, ghost levels: seq<Level>)
    returns (r: Verdict, ghost leaves: seq<Verdict>)
    requires ReadyLeaves(w, scope, chain, levels) && AllHold(chain, levels)
    ensures Blames(r, levels) && Gives(w.flows, r, leaves)
  {
    LocalRefs(w, levels);
    hide RefOk, AllRefsOk, OwnRefs, Chain, AllHold, NamesOnlyHandle;
    if w.flows.None? {
      return Ok(true), [];
    }
    r := EvalFlowsTo(scope, w.flows.value, chain, levels);
    leaves := [r];
  }

  /** The five leaves that read only their captures: kind and text first, then identity. */
  method EvalLocalLeaves(w: WhereNode, scope: Scope, ghost chain: seq<Scope>, ghost levels: seq<Level>)
    returns (r: Verdict, ghost leaves: seq<Verdict>)
    requires ReadyLeaves(w, scope, chain, levels) && AllHold(chain, levels)
    ensures Blames(r, levels) && Evaluated(leaves, LocalCount(w), r)
  {
    assert LocalCount(w) == TextCount(w) + SameCount(w);
    hide *;
    r, leaves := EvalTextLeaves(w, scope, chain, levels);
    if r != Ok(true) {
      StoppedEarly(leaves, TextCount(w), LocalCount(w), r);
      return;
    }
    ghost var more;
    r, more := EvalSameLeaves(w, scope, chain, levels);
    EvaluatedJoined(leaves, TextCount(w), more, SameCount(w), r);
    leaves := leaves + more;
  }

  method EvalTextLeaves(w: WhereNode, scope: Scope, ghost chain: seq<Scope>, ghost levels: seq<Level>)
    returns (r: Verdict, ghost leaves: seq<Verdict>)
    requires ReadyLeaves(w, scope, chain, levels) && AllHold(chain, levels)
    ensures Blames(r, levels) && Evaluated(leaves, TextCount(w), r)
  {
    assert TextCount(w) == One(w.kind) + One(w.matches) + One(w.equals);
    hide *;
    r, leaves := EvalKindLeaf(w, scope, chain, levels);
    FirstLeaf(w.kind, r, leaves);
    if r != Ok(true) {
      StoppedEarly(leaves, One(w.kind), TextCount(w), r);
      return;
    }
    ghost var more;
    r, more := EvalMatchesLeaf(w, scope, chain, levels);
    NextLeaf(leaves, One(w.kind), w.matches, r, more);
    leaves := leaves + more;
    if r != Ok(true) {
      StoppedEarly(leaves, One(w.kind) + One(w.matches), TextCount(w), r);
      return;
    }
    r, more := EvalEqualsLeaf(w, scope, chain, levels);
    NextLeaf(leaves, One(w.kind) + One(w.matches), w.equals, r, more);
    leaves := leaves + more;
  }

  method EvalSameLeaves(w: WhereNode, scope: Scope, ghost chain: seq<Scope>, ghost levels: seq<Level>)
    returns (r: Verdict, ghost leaves: seq<Verdict>)
    requires ReadyLeaves(w, scope, chain, levels) && AllHold(chain, levels)
    ensures Blames(r, levels) && Evaluated(leaves, SameCount(w), r)
  {
    assert SameCount(w) == One(w.sameNode) + One(w.sameText);
    hide *;
    r, leaves := EvalSameNodeLeaf(w, scope, chain, levels);
    FirstLeaf(w.sameNode, r, leaves);
    if r != Ok(true) {
      StoppedEarly(leaves, One(w.sameNode), SameCount(w), r);
      return;
    }
    ghost var more;
    r, more := EvalSameTextLeaf(w, scope, chain, levels);
    NextLeaf(leaves, One(w.sameNode), w.sameText, r, more);
    leaves := leaves + more;
  }

  lemma FirstLeaf<T>(o: Option<T>, r: Verdict, leaves: seq<Verdict>)
    requires Gives(o, r, leaves)
    ensures Evaluated(leaves, One(o), r)
  {
    GivesInTurn(o, r, leaves);
  }

  method EvalSub(o: Option<SubPattern>, w: WhereNode, scope: Scope, ghost chain: seq<Scope>, ghost levels: seq<Level>)
    returns (r: Verdict, ghost at: seq<Level>, ghost leaves: seq<Verdict>, ghost binds: seq<Binding>)
    requires AllHold(chain, levels) && (o == w.inside || o == w.contains)
    requires o.Some? ==> LeafFit(o.value, scope, chain, levels)
    modifies scope
    ensures AllHold(chain, levels) && Explained(r, w, levels, at) && Gives(o, r, leaves)
    ensures scope.log == old(scope.log) + binds && HandlesOf(binds) == HeldHandle(o, leaves, 0)
    decreases w, 0, 0
  {
    hide LeafFit, AllHold, Explained, ExplainedIn, Blames;
    if o.None? {
      AnswerBlamesNothing(true, levels);
      BlamedIsExplained(Ok(true), w, levels);
      return Ok(true), levels, [], [];
    }
    r, at, binds := EvalSubPattern(o.value, scope, chain, levels);
    ExplainedUpLeaf(r, o.value, w, levels, at);
    BoundIsHeld(o.value, r, binds);
    leaves := [r];
  }

  /** A leaf that holds and has a handle makes one binding, under that handle; any other makes none. */
  predicate BoundBy(leaf: SubPattern, r: Verdict, binds: seq<Binding>) {
    if r == Ok(true) && leaf.handle != [] then |binds| == 1 && binds[0].handle == leaf.handle else binds == []
  }

  lemma BoundIsHeld(leaf: SubPattern, r: Verdict, binds: seq<Binding>)
    requires BoundBy(leaf, r, binds)
    ensures HandlesOf(binds) == HeldHandle(Some(leaf), [r], 0)
  {
  }

  /** The three leaves that leave the captured node: the two sub-patterns, then flows-to. */
  method EvalWalkingLeaves(w: WhereNode, scope: Scope, ghost chain: seq<Scope>, ghost levels: seq<Level>)
    returns (r: Verdict, ghost at: seq<Level>, ghost leaves: seq<Verdict>, ghost binds: seq<Binding>)
    requires ReadyLeaves(w, scope, chain, levels) && AllHold(chain, levels)
    requires SubsFit(w, scope, chain, levels)
    modifies scope
    ensures AllHold(chain, levels) && Explained(r, w, levels, at) && Evaluated(leaves, WalkingCount(w), r)
    ensures scope.log == old(scope.log) + binds && WalkBinds(w, leaves, binds)
    decreases w, 0, 3
  {
    assert WalkingCount(w) == SubCount(w) + One(w.flows);
    hide *;
    r, at, leaves, binds := EvalSubLeaves(w, scope, chain, levels);
    if r != Ok(true) {
      StoppedEarly(leaves, SubCount(w), WalkingCount(w), r);
      return;
    }
    ghost var more;
    at := levels;
    r, more := EvalFlowLeaf(w, scope, chain, levels);
    BlamedIsExplained(r, w, levels);
    NextLeaf(leaves, SubCount(w), w.flows, r, more);
    FlowBindsNothing(w, leaves, more, binds);
    leaves := leaves + more;
  }

  ghost predicate SubsFit(w: WhereNode, scope: Scope, chain: seq<Scope>, levels: seq<Level>) {
    && (w.inside.Some? ==> LeafFit(w.inside.value, scope, chain, levels))
    && (w.contains.Some? ==> LeafFit(w.contains.value, scope, chain, levels))
  }

  method EvalInside(w: WhereNode, scope: Scope, ghost chain: seq<Scope>, ghost levels: seq<Level>)
    returns (r: Verdict, ghost at: seq<Level>, ghost leaves: seq<Verdict>, ghost binds: seq<Binding>)
    requires AllHold(chain, levels) && SubsFit(w, scope, chain, levels)
    modifies scope
    ensures AllHold(chain, levels) && Explained(r, w, levels, at) && Gives(w.inside, r, leaves)
    ensures scope.log == old(scope.log) + binds && HandlesOf(binds) == HeldHandle(w.inside, leaves, 0)
    decreases w, 0, 1
  {
    hide AllHold, LeafFit, Explained, Gives, HeldHandle;
    r, at, leaves, binds := EvalSub(w.inside, w, scope, chain, levels);
  }

  method EvalContains(w: WhereNode, scope: Scope, ghost chain: seq<Scope>, ghost levels: seq<Level>)
    returns (r: Verdict, ghost at: seq<Level>, ghost leaves: seq<Verdict>, ghost binds: seq<Binding>)
    requires AllHold(chain, levels) && SubsFit(w, scope, chain, levels)
    modifies scope
    ensures AllHold(chain, levels) && Explained(r, w, levels, at) && Gives(w.contains, r, leaves)
    ensures scope.log == old(scope.log) + binds && HandlesOf(binds) == HeldHandle(w.contains, leaves, 0)
    decreases w, 0, 1
  {
    hide AllHold, LeafFit, Explained, Gives, HeldHandle;
    r, at, leaves, binds := EvalSub(w.contains, w, scope, chain, levels);
  }

  method EvalSubLeaves(w: WhereNode, scope: Scope, ghost chain: seq<Scope>, ghost levels: seq<Level>)
    returns (r: Verdict, ghost at: seq<Level>, ghost leaves: seq<Verdict>, ghost binds: seq<Binding>)
    requires AllHold(chain, levels) && SubsFit(w, scope, chain, levels)
    modifies scope
    ensures AllHold(chain, levels) && Explained(r, w, levels, at) && Evaluated(leaves, SubCount(w), r)
    ensures scope.log == old(scope.log) + binds && WalkBinds(w, leaves, binds)
    decreases w, 0, 2
  {
    assert SubCount(w) == One(w.inside) + One(w.contains);
    hide *;
    r, at, leaves, binds := EvalInside(w, scope, chain, levels);
    FirstLeaf(w.inside, r, leaves);
    if r != Ok(true) {
      StoppedEarly(leaves, One(w.inside), SubCount(w), r);
      InsideBinds(w, r, leaves, binds);
      return;
    }
    ghost var more, moreBinds;
    r, at, more, moreBinds := EvalContains(w, scope, chain, levels);
    NextLeaf(leaves, One(w.inside), w.contains, r, more);
    BothBind(w, leaves, more, binds, moreBinds, old(scope.log));
    leaves, binds := leaves + more, binds + moreBinds;
  }

  lemma InsideBinds(w: WhereNode, r: Verdict, leaves: seq<Verdict>, binds: seq<Binding>)
    requires Gives(w.inside, r, leaves) && HandlesOf(binds) == HeldHandle(w.inside, leaves, 0)
    ensures WalkBinds(w, leaves, binds)
  {
    hide HandlesOf;
    assert HandlesOf(binds) + [] == HandlesOf(binds);
  }

  lemma BothBind(w: WhereNode, leaves: seq<Verdict>, more: seq<Verdict>, binds: seq<Binding>, moreBinds: seq<Binding>,
          log: seq<Binding>)
    requires Gives(w.inside, Ok(true), leaves) && HandlesOf(binds) == HeldHandle(w.inside, leaves, 0)
    requires HandlesOf(moreBinds) == HeldHandle(w.contains, more, 0)
    ensures WalkBinds(w, leaves + more, binds + moreBinds)
    ensures log + binds + moreBinds == log + (binds + moreBinds)
  {
    assert HandlesOf(binds + moreBinds) == HandlesOf(binds) + HandlesOf(moreBinds);
    hide HandlesOf;
    assert |leaves| == One(w.inside);
    assert w.inside.Some? ==> (leaves + more)[0] == leaves[0];
    assert more != [] ==> (leaves + more)[One(w.inside)] == more[0];
  }

  lemma FlowBindsNothing(w: WhereNode, leaves: seq<Verdict>, more: seq<Verdict>, binds: seq<Binding>)
    requires Evaluated(leaves, SubCount(w), Ok(true)) && WalkBinds(w, leaves, binds)
    ensures WalkBinds(w, leaves + more, binds)
  {
    hide HandlesOf;
    assert |leaves| == SubCount(w);
    assert forall i | 0 <= i < |leaves| :: (leaves + more)[i] == leaves[i];
  }

  // ----- sub-patterns -----

  /** Whether the sub-pattern matches the next candidate, and what the match binds: every placeholder of
      the pattern, and the node itself. */
  method MatchSub(pattern: bytes)
    returns (matched: bool, self: Capture, node: nat, captures: map<bytes, Capture>, nodes: map<bytes, nat>)
    ensures captures.Keys == Base(pattern)
  {
    hide Base;
    matched, self, node, nodes := *, *, *, *;
    var seen: map<bytes, Capture> := *;
    captures := map n | n in Base(pattern) :: if n in seen then seen[n] else self;
  }

  method CompileSub(pattern: bytes) returns (ok: bool)
    ensures ok ==> ParsePattern(pattern).Ok?
  {
    var pat := Parse(pattern);
    var compiled: bool := *;
    ok := pat.Ok? && compiled;
  }

  lemma SubFits(leaf: SubPattern, scope: Scope, chain: seq<Scope>, levels: seq<Level>, sub: Scope)
    requires LeafFit(leaf, scope, chain, levels) && ParsePattern(leaf.pattern).Ok? && leaf.where.Some?
    requires sub.parent == scope && sub !in chain
    ensures Fit(leaf.where.value, sub, [sub] + chain, [LevelOf(leaf.where.value, Base(leaf.pattern))] + levels)
  {
    hide RefsOk, NestedOk, Exports, Handles, Base, RefOk, LeafExports, Chain;
    ChainGrows(chain, sub);
    var c, l := [sub] + chain, [LevelOf(leaf.where.value, Base(leaf.pattern))] + levels;
    assert Accepted(leaf.where.value, Base(leaf.pattern), levels);
    assert RefsOk(leaf.where.value, l) && NestedOk(leaf.where.value, l);
    assert c[0] == sub && l[0] == LevelOf(leaf.where.value, Base(leaf.pattern));
  }

  lemma ChainGrows(chain: seq<Scope>, sub: Scope)
    requires Chain(chain) && sub.parent == chain[0] && sub !in chain
    ensures Chain([sub] + chain)
  {
    var c := [sub] + chain;
    forall i | 0 <= i < |c| ensures c[i].parent == At(c, i + 1) {
      if i > 0 {
        assert chain[i - 1].parent == At(chain, i);
      }
    }
    assert forall i | 0 < i < |c| :: c[i] == chain[i - 1];
  }

  lemma FreshHolds(s: Scope, level: Level)
    requires Dotless(level.base) && s.captures == s.own && s.log == [] && s.own.Keys == level.base
    ensures Holds(s, level)
  {
    hide Dotless;
  }

  lemma SubHolds(leaf: SubPattern, chain: seq<Scope>, levels: seq<Level>, sub: Scope)
    requires AllHold(chain, levels) && leaf.where.Some? && sub.captures.Keys == Base(leaf.pattern)
    requires sub.captures == sub.own && sub.log == []
    ensures AllHold([sub] + chain, [LevelOf(leaf.where.value, Base(leaf.pattern))] + levels)
  {
    BaseIsDotless(leaf.pattern);
    var c, l := [sub] + chain, [LevelOf(leaf.where.value, Base(leaf.pattern))] + levels;
    FreshHolds(sub, l[0]);
    hide Holds, Base, LevelOf;
    forall i | 0 <= i < |c| ensures Holds(c[i], l[i]) {
      if i > 0 {
        assert Holds(chain[i - 1], levels[i - 1]);
      }
    }
  }

  lemma SubExplained(r: Result<bool, Fault>, leaf: SubPattern, levels: seq<Level>, at: seq<Level>)
    requires leaf.where.Some?
    requires Explained(r, leaf.where.value, [LevelOf(leaf.where.value, Base(leaf.pattern))] + levels, at)
    ensures ExplainedIn(r, leaf, levels, at)
  {
    hide NamesOnlyHandle, Arises, Base, LevelOf;
  }

  /** Binds a succeeding leaf's handle. */
  method BindLeaf(leaf: SubPattern, scope: Scope, self: Capture, node: nat, captures: map<bytes, Capture>,
          nodes: map<bytes, nat>, ghost chain: seq<Scope>, ghost levels: seq<Level>)
    returns (ghost binds: seq<Binding>)
    requires LeafFit(leaf, scope, chain, levels) && AllHold(chain, levels)
    requires captures.Keys <= Base(leaf.pattern) + if leaf.where.Some? then Exports(leaf.where.value) else {}
    modifies scope
    ensures AllHold(chain, levels) && BoundBy(leaf, Ok(true), binds) && scope.log == old(scope.log) + binds
  {
    hide RefOk, LeafOk, Base, Exports, LeafExports, WithBinding, Keyed, Replay, Declared, Writes;
    ghost var before, log := scope.captures, scope.log;
    binds := if leaf.handle == [] then [] else [Binding(leaf.handle, self, captures)];
    assert log + [] == log;
    assert Holds(chain[0], levels[0]);
    BindAs(scope, leaf.handle, self, node, captures, nodes);
    if leaf.handle != [] {
      ghost var b := Binding(leaf.handle, self, captures);
      LeafWrites(leaf, b, levels[0].exports);
      BoundStillKeyed(before, b, levels[0]);
      ReplayOneMore(scope.own, log, b);
      DeclaredOneMore(log, b, levels[0].exports);
    }
  }

  lemma DeclaredOneMore(log: seq<Binding>, b: Binding, exports: set<bytes>)
    requires Declared(log, exports) && b.handle != [] && Writes(b) <= exports
    ensures Declared(log + [b], exports)
  {
    hide Writes;
  }

  lemma LeafFitRef(leaf: SubPattern, scope: Scope, chain: seq<Scope>, levels: seq<Level>)
    requires LeafFit(leaf, scope, chain, levels)
    ensures Chain(chain) && chain[0] == scope && RefOk(levels, leaf.of)
  {
  }

  lemma SettledHere(r: Result<bool, Fault>, leaf: SubPattern, levels: seq<Level>)
    requires r.Err? && r.error.Unresolved? ==> NamesOnlyHandle(levels, r.error.ref)
    ensures ExplainedIn(r, leaf, levels, levels)
  {
    hide NamesOnlyHandle, ArisesIn;
  }

  /** Searches the candidates for one the sub-pattern and its own where-tree accept, and binds it. */
  method EvalSubPattern(leaf: SubPattern, scope: Scope, ghost chain: seq<Scope>, ghost levels: seq<Level>)
    returns (r: Result<bool, Fault>, ghost at: seq<Level>, ghost binds: seq<Binding>)
    requires LeafFit(leaf, scope, chain, levels) && AllHold(chain, levels)
    modifies scope
    ensures AllHold(chain, levels) && ExplainedIn(r, leaf, levels, at)
    ensures BoundBy(leaf, r, binds) && scope.log == old(scope.log) + binds
    decreases leaf, 2
  {
    hide *;
    LeafFitRef(leaf, scope, chain, levels);
    at, r, binds := levels, Ok(false), [];
    if scope.depth >= MAX_DEPTH {
      r := Err(DepthExceeded);
    } else if leaf.language != [] && leaf.language != scope.language {
      r := Err(CrossLanguage);
    } else {
      var of := Resolve(scope, leaf.of, chain, levels);
      if of.Err? {
        r := Err(of.error);
      } else if of.value.1.Some? {
        var compiled := CompileSub(leaf.pattern);
        if compiled {
          r, at, binds := Search(leaf, scope, chain, levels);
          return;
        }
        r := Err(CompileFailed);
      }
    }
    SettledHere(r, leaf, levels);
    NothingBoundBy(leaf, r, scope.log);
  }

  method Search(leaf: SubPattern, scope: Scope, ghost chain: seq<Scope>, ghost levels: seq<Level>)
    returns (r: Result<bool, Fault>, ghost at: seq<Level>, ghost binds: seq<Binding>)
    requires LeafFit(leaf, scope, chain, levels) && AllHold(chain, levels) && ParsePattern(leaf.pattern).Ok?
    modifies scope
    ensures AllHold(chain, levels) && ExplainedIn(r, leaf, levels, at)
    ensures BoundBy(leaf, r, binds) && scope.log == old(scope.log) + binds
    decreases leaf, 1
  {
    hide *;
    var candidates: int := *;
    while candidates > 0
      invariant AllHold(chain, levels) && scope.log == old(scope.log)
      decreases candidates
    {
      candidates := candidates - 1;
      r, at, binds := TryCandidate(leaf, scope, chain, levels);
      if r.Err? || r.value {
        return;
      }
      OnlyHeldBinds(leaf, r, binds, old(scope.log));
    }
    SettledHere(Ok(false), leaf, levels);
    NothingBoundBy(leaf, Ok(false), scope.log);
    return Ok(false), levels, [];
  }

  method TryCandidate(leaf: SubPattern, scope: Scope, ghost chain: seq<Scope>, ghost levels: seq<Level>)
    returns (r: Result<bool, Fault>, ghost at: seq<Level>, ghost binds: seq<Binding>)
    requires LeafFit(leaf, scope, chain, levels) && AllHold(chain, levels) && ParsePattern(leaf.pattern).Ok?
    modifies scope
    ensures AllHold(chain, levels) && ExplainedIn(r, leaf, levels, at)
    ensures BoundBy(leaf, r, binds) && scope.log == old(scope.log) + binds
    decreases leaf, 0
  {
    hide Fit, Explained, ArisesIn, NamesOnlyHandle, Chain, AllHold, ParsePattern, Base, Exports, LeafExports, LeafOk, RefOk, LevelOf;
    var matched, self, node, captures, nodes := MatchSub(leaf.pattern);
    at, binds := levels, [];
    NothingBoundBy(leaf, Ok(false), scope.log);
    if !matched {
      return Ok(false), at, binds;
    }
    if leaf.where.None? {
      binds := BindLeaf(leaf, scope, self, node, captures, nodes, chain, levels);
      return Ok(true), at, binds;
    }
    var sub := new Scope(captures, nodes, scope, scope.depth + 1, scope.language);
    ghost var subChain, subLevels := [sub] + chain, [LevelOf(leaf.where.value, Base(leaf.pattern))] + levels;
    SubFits(leaf, scope, chain, levels, sub);
    SubHolds(leaf, chain, levels, sub);
    ghost var run;
    r, at, run := EvalWhere(leaf.where.value, sub, subChain, subLevels);
    SubExplained(r, leaf, levels, at);
    SubKeys(leaf, sub, chain, levels);
    if r.Ok? && r.value {
      binds := BindLeaf(leaf, scope, self, node, sub.captures, sub.nodes, chain, levels);
    }
  }

  lemma NothingBoundBy(leaf: SubPattern, r: Verdict, log: seq<Binding>)
    requires r != Ok(true)
    ensures BoundBy(leaf, r, []) && log + [] == log
  {
  }

  lemma OnlyHeldBinds(leaf: SubPattern, r: Verdict, binds: seq<Binding>, log: seq<Binding>)
    requires BoundBy(leaf, r, binds) && r != Ok(true)
    ensures binds == [] && log + binds == log
  {
  }

  lemma SubKeys(leaf: SubPattern, sub: Scope, chain: seq<Scope>, levels: seq<Level>)
    requires leaf.where.Some? && AllHold([sub] + chain, [LevelOf(leaf.where.value, Base(leaf.pattern))] + levels)
    ensures AllHold(chain, levels)
    ensures sub.captures.Keys <= Base(leaf.pattern) + Exports(leaf.where.value)
  {
    hide Base, Exports, Handles, Replay, Declared, Dotless;
    var c, l := [sub] + chain, [LevelOf(leaf.where.value, Base(leaf.pattern))] + levels;
    assert Holds(c[0], l[0]);
    hide Holds;
    forall i | 0 <= i < |chain| ensures Holds(chain[i], levels[i]) {
      assert Holds(c[i + 1], l[i + 1]);
    }
  }

  // ----- the theorem -----

  /** Filters one match of a pattern, which bound `captures`, through a where-tree the check accepted for it.
      Whatever the leaves answer and whatever the sub-patterns match, at any depth: a capture that fails to
      resolve is one only an `as` declaration could have bound. What the match then carries is `captures`
      with the bindings in `log` replayed onto it. */
  method FilterMatch(w: WhereNode, pattern: bytes, language: bytes, captures: map<bytes, Capture>)
    returns (r: Verdict, after: map<bytes, Capture>, ghost log: seq<Binding>, ghost at: seq<Level>, ghost run: Run)
    requires Accepted(w, Base(pattern), []) && captures.Keys == Base(pattern)
    ensures r.Err? && r.error.Unresolved? ==>
              Arises(w, [LevelOf(w, Base(pattern))], at) && NamesOnlyHandle(at, r.error.ref)
    ensures HandleFree(w) && r.Err? ==> !r.error.Unresolved?
    ensures Means(w, run) && run.result == r
    ensures after == Replay(captures, log) && Declared(log, Exports(w)) && log == Log(run)
  {
    hide Base, NamesOnlyHandle, Arises, RefsOk, NestedOk, Exports, Handles, HandleFree, Means, Replay, Declared, Dotless;
    var nodes: map<bytes, nat> := *;
    var scope := new Scope(captures, nodes, null, 0, language);
    BaseIsDotless(pattern);
    ghost var level := LevelOf(w, Base(pattern));
    assert [level] + [] == [level];
    FreshHolds(scope, level);
    hide Holds;
    r, at, run := EvalWhere(w, scope, [scope], [level]);
    assert Holds([scope][0], [level][0]);
    HeldLog(scope, level);
    after, log := scope.captures, scope.log;
    assert [] + Log(run) == Log(run);
    if HandleFree(w) && r.Err? && r.error.Unresolved? {
      HandleFreeNeverUnresolved(w, pattern, at, r.error.ref);
    }
  }

  lemma HeldLog(s: Scope, level: Level)
    requires Holds(s, level)
    ensures s.captures == Replay(s.own, s.log) && Declared(s.log, level.exports)
  {
  }

  // ----- what the bindings leave alone -----

  /** The keys some binding wrote. */
  function KeysWritten(log: seq<Binding>): set<bytes> {
    if log == [] then {} else KeysWritten(log[..|log| - 1]) + Writes(log[|log| - 1])
  }

  /** Under every other key stands what the match bound. */
  lemma {:induction false} UnwrittenKept(m: map<bytes, Capture>, log: seq<Binding>, k: bytes)
    requires Dotless(m.Keys) && k !in KeysWritten(log)
    ensures k in Replay(m, log) <==> k in m
    ensures k in m ==> Replay(m, log)[k] == m[k]
    decreases |log|
  {
    hide Writes;
    if log != [] {
      var b := log[|log| - 1];
      UnwrittenKept(m, log[..|log| - 1], k);
      BindingWritesHandle(b);
      if k in m {
        assert DOT !in k;
        assert (b.handle + [DOT])[|b.handle|] == DOT;
      }
    }
  }

  /** The node a handle was last bound to. */
  function LastBound(log: seq<Binding>, handle: bytes): Option<Capture> {
    if log == [] then None
    else if log[|log| - 1].handle == handle then Some(log[|log| - 1].self)
    else LastBound(log[..|log| - 1], handle)
  }

  /** A name without a dot stands for the node a handle of that name was last bound to, or for what it stood
      for before when there is no such handle. */
  lemma {:induction false} HandleStandsFor(m: map<bytes, Capture>, log: seq<Binding>, name: bytes)
    requires DOT !in name
    ensures match LastBound(log, name)
            case Some(c) => name in Replay(m, log) && Replay(m, log)[name] == c
            case None => (name in Replay(m, log) <==> name in m) && (name in m ==> Replay(m, log)[name] == m[name])
    decreases |log|
  {
    if log != [] {
      HandleStandsFor(m, log[..|log| - 1], name);
      BindingStandsFor(Replay(m, log[..|log| - 1]), log[|log| - 1], name);
      hide WithBinding;
    }
  }

  lemma BindingStandsFor(m: map<bytes, Capture>, b: Binding, name: bytes)
    requires DOT !in name
    ensures var after := WithBinding(m, b);
            if b.handle == name then name in after && after[name] == b.self
            else (name in after <==> name in m) && (name in m ==> after[name] == m[name])
  {
    assert (b.handle + [DOT])[|b.handle|] == DOT;
    forall n | n in b.sub.Keys ensures Exported(b.handle, n) != name {
      assert Exported(b.handle, n)[|b.handle|] == DOT;
    }
  }

  lemma {:induction false} WrittenIsDeclared(log: seq<Binding>, exports: set<bytes>)
    requires Declared(log, exports)
    ensures KeysWritten(log) <= exports && (exports == {} ==> log == [])
    decreases |log|
  {
    hide Writes;
    if log != [] {
      var b := log[|log| - 1];
      assert b in log;
      BindingWritesHandle(b);
      WrittenIsDeclared(log[..|log| - 1], exports);
    }
  }

  /** No leaf at this level declares a handle; what nested trees declare stays in their own scopes. */
  predicate NoHandleHere(w: WhereNode)
    decreases w
  {
    && (forall i | 0 <= i < |w.all| :: NoHandleHere(w.all[i]))
    && (forall i | 0 <= i < |w.any| :: NoHandleHere(w.any[i]))
    && (w.negated.Some? ==> NoHandleHere(w.negated.value))
    && (w.inside.Some? ==> w.inside.value.handle == []) && (w.contains.Some? ==> w.contains.value.handle == [])
  }

  /** A tree may add to the captures of its match exactly when a leaf of its own level declares a handle. */
  lemma {:induction false} ExportsNothingIff(w: WhereNode)
    ensures Exports(w) == {} <==> NoHandleHere(w)
    decreases w, 1
  {
    AllExportNothingIff(w.all);
    AllExportNothingIff(w.any);
    if w.negated.Some? {
      ExportsNothingIff(w.negated.value);
    }
    LeafExportsNothingIff(w.inside);
    LeafExportsNothingIff(w.contains);
    hide LeafExports;
  }

  lemma LeafExportsNothingIff(leaf: Option<SubPattern>)
    ensures LeafExports(leaf) == {} <==> leaf.None? || leaf.value.handle == []
  {
    if leaf.Some? && leaf.value.handle != [] {
      assert leaf.value.handle in LeafExports(leaf);
    }
  }

  lemma {:induction false} AllExportNothingIff(ws: seq<WhereNode>)
    ensures AllExports(ws) == {} <==> forall i | 0 <= i < |ws| :: NoHandleHere(ws[i])
    decreases ws, 0
  {
    hide Exports, NoHandleHere;
    if ws != [] {
      ExportsNothingIff(ws[0]);
      AllExportNothingIff(ws[1..]);
      assert forall i | 0 < i < |ws| :: ws[i] == ws[1..][i - 1];
      if forall i | 0 <= i < |ws| :: NoHandleHere(ws[i]) {
        assert forall i | 0 <= i < |ws[1..]| :: ws[1..][i] == ws[i + 1];
      }
    }
  }

  // ----- how far the check and the evaluation agree -----

  /** No leaf of the tree, nested ones included, declares a handle. */
  predicate HandleFree(w: WhereNode)
    decreases w, 0
  {
    && (forall i | 0 <= i < |w.all| :: HandleFree(w.all[i]))
    && (forall i | 0 <= i < |w.any| :: HandleFree(w.any[i]))
    && (w.negated.Some? ==> HandleFree(w.negated.value))
    && (w.inside.Some? ==> LeafHandleFree(w.inside.value))
    && (w.contains.Some? ==> LeafHandleFree(w.contains.value))
  }

  predicate LeafHandleFree(leaf: SubPattern)
    decreases leaf, 0
  {
    leaf.handle == [] && (leaf.where.Some? ==> HandleFree(leaf.where.value))
  }

  ghost predicate NoHandles(levels: seq<Level>) {
    forall i | 0 <= i < |levels| :: levels[i].handles == {}
  }

  lemma {:induction false} HandleFreeDeclaresNone(w: WhereNode)
    requires HandleFree(w)
    ensures Handles(w) == {}
    decreases w, 1
  {
    AllHandleFree(w.all);
    AllHandleFree(w.any);
    if w.negated.Some? {
      HandleFreeDeclaresNone(w.negated.value);
    }
  }

  lemma {:induction false} AllHandleFree(ws: seq<WhereNode>)
    requires forall i | 0 <= i < |ws| :: HandleFree(ws[i])
    ensures AllHandles(ws) == {}
    decreases ws, 0
  {
    hide HandleFree, Handles;
    if ws != [] {
      HandleFreeDeclaresNone(ws[0]);
      AllHandleFree(ws[1..]);
    }
  }

  lemma {:induction false} HandleFreeLevels(w: WhereNode, levels: seq<Level>, at: seq<Level>)
    requires HandleFree(w) && NoHandles(levels) && Arises(w, levels, at)
    ensures NoHandles(at)
    decreases w
  {
    hide NoHandles;
    if at != levels {
      if i :| 0 <= i < |w.all| && Arises(w.all[i], levels, at) {
        HandleFreeLevels(w.all[i], levels, at);
      } else if i :| 0 <= i < |w.any| && Arises(w.any[i], levels, at) {
        HandleFreeLevels(w.any[i], levels, at);
      } else if w.negated.Some? && Arises(w.negated.value, levels, at) {
        HandleFreeLevels(w.negated.value, levels, at);
      } else if w.inside.Some? && ArisesIn(w.inside.value, levels, at) {
        HandleFreeLeaf(w.inside.value, levels, at);
      } else {
        HandleFreeLeaf(w.contains.value, levels, at);
      }
    }
  }

  lemma {:induction false} HandleFreeLeaf(leaf: SubPattern, levels: seq<Level>, at: seq<Level>)
    requires LeafHandleFree(leaf) && NoHandles(levels) && ArisesIn(leaf, levels, at)
    ensures NoHandles(at)
    decreases leaf
  {
    hide Arises, HandleFree, Base, Exports;
    var w := leaf.where.value;
    HandleFreeDeclaresNone(w);
    HandleFreeLevels(w, [LevelOf(w, Base(leaf.pattern))] + levels, at);
  }

  /** Without handles an accepted tree never meets an unresolved capture: no outcome of the theorem blames one. */
  lemma HandleFreeNeverUnresolved(w: WhereNode, pattern: bytes, at: seq<Level>, ref: bytes)
    requires HandleFree(w) && Arises(w, [LevelOf(w, Base(pattern))], at)
    ensures !NamesOnlyHandle(at, ref)
  {
    hide Arises, HandleFree, Base, Exports;
    HandleFreeDeclaresNone(w);
    HandleFreeLevels(w, [LevelOf(w, Base(pattern))], at);
  }

  /** A reference to a name that is neither bound by a match nor exportable fails whenever it is read. */
  lemma NothingBeyondExports(chain: seq<Scope>, levels: seq<Level>, i: nat, name: bytes)
    requires AllHold(chain, levels) && i < |chain| && name !in levels[i].base + levels[i].exports
    ensures name !in chain[i].captures
  {
    hide Replay, Declared;
    assert Holds(chain[i], levels[i]);
  }

  /** The check is stricter than the evaluation in one place only: a leaf also exports what its nested
      where-tree bound, and the check declares such a key exactly when the leaf's own pattern binds that
      name. */
  lemma NestedExportDeclaredIffBound(leaf: SubPattern, name: bytes)
    requires leaf.handle != [] && leaf.where.Some? && name in Exports(leaf.where.value)
    ensures Exported(leaf.handle, name) in LeafExports(Some(leaf))
    ensures Exported(leaf.handle, name) in LeafHandles(Some(leaf)) <==> name in Base(leaf.pattern)
  {
    hide Base, Exports;
    assert |Exported(leaf.handle, name)| > |leaf.handle|;
    if Exported(leaf.handle, name) in LeafHandles(Some(leaf)) {
      var n :| n in Base(leaf.pattern) && Exported(leaf.handle, n) == Exported(leaf.handle, name);
      ExportedInjective(leaf.handle, n, name);
    }
  }

  /** Everything the check declares, an evaluation may bind. */
  lemma {:induction false} HandlesAreExported(w: WhereNode)
    ensures Handles(w) <= Exports(w)
    decreases w, 1
  {
    AllHandlesAreExported(w.all);
    AllHandlesAreExported(w.any);
    if w.negated.Some? {
      HandlesAreExported(w.negated.value);
    }
  }

  lemma {:induction false} AllHandlesAreExported(ws: seq<WhereNode>)
    ensures AllHandles(ws) <= AllExports(ws)
    decreases ws, 0
  {
    hide Handles, Exports;
    if ws != [] {
      HandlesAreExported(ws[0]);
      AllHandlesAreExported(ws[1..]);
    }
  }
}
