/**
 The where-tree and the check of its capture references before any match is looked for. A reference
 may name a placeholder of the pattern whose matches it filters, the implicit match capture, an `as`
 handle, or a key exported under one; `$outer.` steps to the enclosing scope.
 */
module WhereTree {
  import opened Bytes
  import opened Outcomes
  import opened MatchRecords
  import opened PlaceholderDsl

  datatype WhereNode = WhereNode(all: seq<WhereNode>, any: seq<WhereNode>, negated: Option<WhereNode>,
                                 kind: Option<bytes>, matches: Option<bytes>, equals: Option<bytes>,
                                 sameNode: Option<seq<bytes>>, sameText: Option<seq<bytes>>,
                                 inside: Option<SubPattern>, contains: Option<SubPattern>, flows: Option<FlowsTo>)

  datatype SubPattern = SubPattern(of: bytes, pattern: bytes, language: bytes, where: Option<WhereNode>, handle: bytes)

  datatype FlowsTo = FlowsTo(from: bytes, to: bytes, within: bytes)

  /** "$outer." */
  const STEP_OUT: bytes := [DOLLAR, 0x6F, 0x75, 0x74, 0x65, 0x72, DOT]
  const DOT: byte := 0x2E

  // ----- names -----

  /** How many scopes a reference steps out, and the name it then looks up. */
  function OuterDepth(ref: bytes): nat {
    if STEP_OUT <= ref then 1 + OuterDepth(ref[|STEP_OUT|..]) else 0
  }

  function InnerName(ref: bytes): bytes {
    if STEP_OUT <= ref then InnerName(ref[|STEP_OUT|..]) else ref
  }

  predicate Blank(ref: bytes) {
    Trim(ref) == []
  }

  function NamesOfTokens(ts: seq<Token>): set<bytes> {
    set t | t in ts && t.name != [] :: t.name
  }

  /** The placeholder names of a pattern's source; none when it does not parse. */
  function NamesOf(pattern: bytes): set<bytes> {
    match ParsePattern(pattern)
    case Err(_) => {}
    case Ok(ts) => NamesOfTokens(ts)
  }

  /** What every match of the pattern binds. */
  function Base(pattern: bytes): set<bytes> {
    NamesOf(pattern) + {IMPLICIT}
  }

  function Exported(handle: bytes, name: bytes): bytes {
    handle + [DOT] + name
  }

  function ExportedAll(handle: bytes, names: set<bytes>): set<bytes> {
    set n | n in names :: Exported(handle, n)
  }

  // ----- what a level declares -----

  /** One scope: the names its matches bind, the handles its where-tree declares, and every key its
      where-tree may bind while it is evaluated. */
  datatype Level = Level(base: set<bytes>, handles: set<bytes>, exports: set<bytes>)

  /** A leaf's handle and the keys its own pattern exports under it. */
  function LeafHandles(leaf: Option<SubPattern>): set<bytes> {
    if leaf.None? || leaf.value.handle == [] then {}
    else {leaf.value.handle} + ExportedAll(leaf.value.handle, Base(leaf.value.pattern))
  }

  function Handles(w: WhereNode): set<bytes>
    decreases w, 1
  {
    AllHandles(w.all) + AllHandles(w.any) + (if w.negated.Some? then Handles(w.negated.value) else {})
    + LeafHandles(w.inside) + LeafHandles(w.contains)
  }

  function AllHandles(ws: seq<WhereNode>): set<bytes>
    decreases ws, 0
  {
    if ws == [] then {} else Handles(ws[0]) + AllHandles(ws[1..])
  }

  // ----- references -----

  predicate Known(levels: seq<Level>, ref: bytes) {
    OuterDepth(ref) < |levels|
    && InnerName(ref) in levels[OuterDepth(ref)].base + levels[OuterDepth(ref)].handles
  }

  predicate RefOk(levels: seq<Level>, ref: bytes) {
    !Blank(ref) && Known(levels, ref)
  }

  function OptRef(o: Option<bytes>): seq<bytes> {
    if o.Some? then [o.value] else []
  }

  function OptRefs(o: Option<seq<bytes>>): seq<bytes> {
    if o.Some? then o.value else []
  }

  function SubRef(o: Option<SubPattern>): seq<bytes> {
    if o.Some? then [o.value.of] else []
  }

  function FlowRefs(o: Option<FlowsTo>): seq<bytes> {
    if o.Some? then [o.value.from, o.value.to, o.value.within] else []
  }

  /** Every reference the leaves on this node carry, a nested where-tree's excepted. */
  function OwnRefs(w: WhereNode): seq<bytes> {
    OptRef(w.kind) + OptRef(w.matches) + OptRef(w.equals) + OptRefs(w.sameNode) + OptRefs(w.sameText)
    + SubRef(w.inside) + SubRef(w.contains) + FlowRefs(w.flows)
  }

  predicate AllRefsOk(levels: seq<Level>, refs: seq<bytes>) {
    forall r | r in refs :: RefOk(levels, r)
  }

  predicate RefsOk(w: WhereNode, levels: seq<Level>)
    decreases w
  {
    && (forall i | 0 <= i < |w.all| :: RefsOk(w.all[i], levels))
    && (forall i | 0 <= i < |w.any| :: RefsOk(w.any[i], levels))
    && (w.negated.Some? ==> RefsOk(w.negated.value, levels))
    && AllRefsOk(levels, OwnRefs(w))
  }

  /** The nested where-trees at this level are accepted, each in a scope of its own. */
  predicate NestedOk(w: WhereNode, levels: seq<Level>)
    decreases w, 0
  {
    && (forall i | 0 <= i < |w.all| :: NestedOk(w.all[i], levels))
    && (forall i | 0 <= i < |w.any| :: NestedOk(w.any[i], levels))
    && (w.negated.Some? ==> NestedOk(w.negated.value, levels))
    && (w.inside.Some? ==> LeafOk(w.inside.value, levels))
    && (w.contains.Some? ==> LeafOk(w.contains.value, levels))
  }

  predicate LeafOk(leaf: SubPattern, levels: seq<Level>)
    decreases leaf, 0
  {
    leaf.where.Some? && ParsePattern(leaf.pattern).Ok? ==>
      Accepted(leaf.where.value, Base(leaf.pattern), levels)
  }

  /** The check accepts the tree for matches binding `base` inside the enclosing levels. */
  predicate Accepted(w: WhereNode, base: set<bytes>, outer: seq<Level>)
    decreases w, 1
  {
    var levels := [LevelOf(w, base)] + outer;
    RefsOk(w, levels) && NestedOk(w, levels)
  }

  function LevelOf(w: WhereNode, base: set<bytes>): Level {
    Level(base, Handles(w), Exports(w))
  }

  /** A reference that steps out of no scope and names something the level's match binds is accepted. */
  lemma PlainRefOk(level: Level, ref: bytes, k: nat)
    requires ref in level.base && !(STEP_OUT <= ref) && k < |ref| && IsIdentCont(ref[k])
    ensures RefOk([level], ref)
  {
    TrimKeepsInk(ref, k);
    hide Trim;
    assert OuterDepth(ref) == 0 && InnerName(ref) == ref;
  }

  /** A tree of leaves alone, none of them nesting another tree, is accepted when its references are. */
  lemma LeavesAccepted(w: WhereNode, levels: seq<Level>)
    requires w.all == [] && w.any == [] && w.negated.None? && AllRefsOk(levels, OwnRefs(w))
    requires (w.inside.Some? ==> w.inside.value.where.None?) && (w.contains.Some? ==> w.contains.value.where.None?)
    ensures RefsOk(w, levels) && NestedOk(w, levels)
  {
    hide AllRefsOk, OwnRefs;
  }

  // ----- everything an evaluation may bind -----

  /** A leaf exports every key its sub-match's scope holds when it succeeds, nested handles included. */
  function LeafExports(leaf: Option<SubPattern>): set<bytes>
    decreases leaf, 0
  {
    if leaf.None? || leaf.value.handle == [] then {}
    else
      {leaf.value.handle} + ExportedAll(leaf.value.handle, Base(leaf.value.pattern))
      + (if leaf.value.where.Some? then ExportedAll(leaf.value.handle, Exports(leaf.value.where.value)) else {})
  }

  function Exports(w: WhereNode): set<bytes>
    decreases w, 1
  {
    AllExports(w.all) + AllExports(w.any) + (if w.negated.Some? then Exports(w.negated.value) else {})
    + LeafExports(w.inside) + LeafExports(w.contains)
  }

  function AllExports(ws: seq<WhereNode>): set<bytes>
    decreases ws, 0
  {
    if ws == [] then {} else Exports(ws[0]) + AllExports(ws[1..])
  }

  /** `at` is the chain of scopes of this tree or of one nested in it. */
  ghost predicate Arises(w: WhereNode, levels: seq<Level>, at: seq<Level>)
    decreases w, 0
  {
    || at == levels
    || (exists i | 0 <= i < |w.all| :: Arises(w.all[i], levels, at))
    || (exists i | 0 <= i < |w.any| :: Arises(w.any[i], levels, at))
    || (w.negated.Some? && Arises(w.negated.value, levels, at))
    || (w.inside.Some? && ArisesIn(w.inside.value, levels, at))
    || (w.contains.Some? && ArisesIn(w.contains.value, levels, at))
  }

  ghost predicate ArisesIn(leaf: SubPattern, levels: seq<Level>, at: seq<Level>)
    decreases leaf, 0
  {
    leaf.where.Some?
    && Arises(leaf.where.value, [LevelOf(leaf.where.value, Base(leaf.pattern))] + levels, at)
  }

  /** The reference names an `as` handle of the level it steps out to, or a key exported under one, and
      nothing a match of that level binds. */
  predicate NamesOnlyHandle(at: seq<Level>, ref: bytes) {
    && !Blank(ref) && OuterDepth(ref) < |at|
    && InnerName(ref) in at[OuterDepth(ref)].handles && InnerName(ref) !in at[OuterDepth(ref)].base
  }
}
