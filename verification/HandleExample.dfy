/**
 A match whose handle hides the match's own anchor: the derivation, the evaluation of its where-tree and the
 rewrite, byte for byte.
 */
module HandleExample {
  import opened Bytes
  import opened Outcomes
  import opened SyntaxTree
  import opened MatchRecords
  import opened Derivations
  import opened PatternNames
  import opened RawMatches
  import WhereTree
  import opened WhereEval
  import opened SpliceAnchors
  import opened SpliceScan
  import opened SpliceComments
  import opened Splice
  import opened PlaceholderDsl
  import SpliceIdentity
  import PatternTemplate

  // ----- deriving a match step by step, in a pattern without sequences -----

  /** No sequences, and every child of a node is compared. */
  predicate KeepsTokens(pt: PatternTree) {
    !pt.hasSeq && pt.cfg.layoutTokens == []
  }

  /** The node wraps no child of its own span, so it is read as it is. */
  predicate Bare(pt: PatternTree, p: Node) {
    !pt.hasSeq && SameSpanChild(p).None?
  }

  lemma BareReads(pt: PatternTree, p: Node, t: Node)
    requires Bare(pt, p)
    ensures Reading(pt, p) == p && Facing(pt, p, t) == t
  {
  }

  /** One node holds, and this is what it records. */
  ghost predicate Derives(pt: PatternTree, p: Node, t: Node, src: bytes, d: Deriv, tr: seq<Event>) {
    NodeHolds(pt, p, t, src, d) && NodeTrace(pt, p, t, src, d) == tr && NodeDropped(pt, p, t, src, d) == []
  }

  ghost predicate DerivesAll(pt: PatternTree, parent: Node, ps: seq<Node>, idx: nat, ts: seq<Node>, src: bytes, s: Sibs,
          tr: seq<Event>)
  {
    && SibsHold(pt, parent, ps, idx, ts, src, s) && SibsTrace(pt, parent, ps, idx, ts, src, s) == tr
    && SibsDropped(pt, parent, ps, idx, ts, src, s) == []
  }

  lemma TokenHolds(pt: PatternTree, p: Node, t: Node, src: bytes)
    requires Bare(pt, p) && p.children == [] == t.children && Lookup(pt, p).None? && !IsOpaque(pt, p.kind)
    requires p.kind == t.kind && Text(p, pt.source) == Text(t, src) && !pt.cfg.trimsAnonTokens
    ensures Derives(pt, p, t, src, Leaf, [Aligned(TokenAlign(p.start, p.end, t.start, t.end))])
  {
    BareReads(pt, p, t);
    hide Reading, Facing, Text;
  }

  lemma HoleHolds(pt: PatternTree, p: Node, t: Node, src: bytes, name: bytes)
    requires Bare(pt, p) && Lookup(pt, p) == Some(Placeholder(name, KindNode)) && name != [] && SameSpanChild(t).None?
    ensures Derives(pt, p, t, src, Leaf, [Bound(name, NodeToCapture(t, src), Range(p.start, p.end))])
  {
    BareReads(pt, p, t);
    assert Effective(t) == t;
    hide Reading, Facing, NodeToCapture;
  }

  lemma KidsHold(pt: PatternTree, p: Node, t: Node, src: bytes, s: Sibs, tr: seq<Event>)
    requires Bare(pt, p) && Lookup(pt, p).None? && !IsOpaque(pt, p.kind) && p.kind == t.kind
    requires p.children != [] && KeepsTokens(pt)
    requires DerivesAll(pt, p, p.children, 0, t.children, src, s, tr)
    ensures Derives(pt, p, t, src, Kids(s), tr)
  {
    BareReads(pt, p, t);
    NoLayout(p.children, pt.source);
    NoLayout(t.children, src);
    hide Reading, Facing, SibsHold, SibsTrace, SibsDropped, WithoutLayout;
  }

  lemma {:induction false} NoLayout(ns: seq<Node>, src: bytes)
    ensures WithoutLayout(ns, src, []) == ns
  {
    if ns != [] {
      NoLayout(ns[1..], src);
    }
  }

  lemma NoneLeft(pt: PatternTree, parent: Node, idx: nat, src: bytes)
    ensures DerivesAll(pt, parent, [], idx, [], src, Done, [])
  {
  }

  lemma OneMoreHolds(pt: PatternTree, parent: Node, p: Node, ps: seq<Node>, idx: nat, t: Node, ts: seq<Node>, src: bytes,
          head: Deriv, tail: Sibs, tr: seq<Event>, rest: seq<Event>)
    requires KeepsTokens(pt) && !IsIgnorableComment(t, pt.cfg.commentKinds)
    requires Derives(pt, p, t, src, head, tr) && DerivesAll(pt, parent, ps, idx + 1, ts, src, tail, rest)
    ensures DerivesAll(pt, parent, [p] + ps, idx, [t] + ts, src, One(head, tail), tr + rest)
  {
    hide NodeHolds, NodeTrace, NodeDropped, IsIgnorableComment;
    var ps', ts' := [p] + ps, [t] + ts;
    assert ps'[1..] == ps && ts'[1..] == ts;
    assert LeadComments(ts', pt.cfg.commentKinds) == 0;
    assert ts'[..0] == [] && SkippedAll([]) == [] && [] + tr == tr;
  }

  lemma OneHolds(pt: PatternTree, parent: Node, p: Node, idx: nat, t: Node, src: bytes, d: Deriv, tr: seq<Event>)
    requires KeepsTokens(pt) && !IsIgnorableComment(t, pt.cfg.commentKinds) && Derives(pt, p, t, src, d, tr)
    ensures DerivesAll(pt, parent, [p], idx, [t], src, One(d, Done), tr)
  {
    hide Derives, DerivesAll, IsIgnorableComment;
    NoneLeft(pt, parent, idx + 1, src);
    OneMoreHolds(pt, parent, p, [], idx, t, [], src, d, Done, tr, []);
    assert [p] + [] == [p] && [t] + [] == [t] && tr + [] == tr;
  }

  lemma TwoHold(pt: PatternTree, parent: Node, a: Node, b: Node, idx: nat, x: Node, y: Node, src: bytes, d: Deriv, e: Deriv,
          tr: seq<Event>, tr': seq<Event>)
    requires KeepsTokens(pt) && !IsIgnorableComment(x, pt.cfg.commentKinds) && !IsIgnorableComment(y, pt.cfg.commentKinds)
    requires Derives(pt, a, x, src, d, tr) && Derives(pt, b, y, src, e, tr')
    ensures DerivesAll(pt, parent, [a, b], idx, [x, y], src, One(d, One(e, Done)), tr + tr')
  {
    hide Derives, DerivesAll, IsIgnorableComment;
    OneHolds(pt, parent, b, idx + 1, y, src, e, tr');
    OneMoreHolds(pt, parent, a, [b], idx, x, [y], src, d, One(e, Done), tr, tr');
    assert [a] + [b] == [a, b] && [x] + [y] == [x, y];
  }

  lemma ThreeHold(pt: PatternTree, parent: Node, a: Node, b: Node, c: Node, x: Node, y: Node, z: Node, src: bytes,
          tr: seq<Event>, tr': seq<Event>, tr'': seq<Event>)
    requires KeepsTokens(pt) && !IsIgnorableComment(x, pt.cfg.commentKinds) && !IsIgnorableComment(y, pt.cfg.commentKinds)
    requires !IsIgnorableComment(z, pt.cfg.commentKinds)
    requires Derives(pt, a, x, src, Leaf, tr) && Derives(pt, b, y, src, Leaf, tr') && Derives(pt, c, z, src, Leaf, tr'')
    ensures DerivesAll(pt, parent, [a, b, c], 0, [x, y, z], src, One(Leaf, One(Leaf, One(Leaf, Done))), tr + (tr' + tr''))
  {
    hide Derives, DerivesAll, IsIgnorableComment;
    TwoHold(pt, parent, b, c, 1, y, z, src, Leaf, Leaf, tr', tr'');
    OneMoreHolds(pt, parent, a, [b, c], 0, x, [y, z], src, Leaf, One(Leaf, One(Leaf, Done)), tr, tr' + tr'');
    assert [a] + [b, c] == [a, b, c] && [x] + [y, z] == [x, y, z];
  }

  lemma TwoNamed(n: Node, a: Node, b: Node)
    requires n.children == [a, b] && a.named && b.named
    ensures SameSpanChild(n).None? && |NamedOnly(n.children)| == 2
  {
    assert [a, b][1..] == [b] && [b][1..] == [];
    assert NamedOnly([b]) == [b];
  }

  lemma OneNamed(n: Node, a: Node, b: Node, c: Node)
    requires n.children == [a, b, c] && !a.named && b.named && !c.named && n.start < b.start
    ensures SameSpanChild(n).None? && |NamedOnly(n.children)| == 1
  {
    assert [a, b, c][1..] == [b, c] && [b, c][1..] == [c] && [c][1..] == [];
    assert NamedOnly([c]) == [];
    assert NamedOnly([b, c]) == [b];
  }

  // ----- the input -----

  /** The source `f( g(x) )`, matched by `f($A)` under a where-tree whose `contains_pattern` on `$A` finds the
      identifier `g` and calls it `H`. */
  const CALL: bytes := [0x66, 0x28, 0x20, 0x67, 0x28, 0x78, 0x29, 0x20, 0x29]
  const TEMPLATE: bytes := [0x66, 0x28, DOLLAR, 0x41, 0x29]
  const A: bytes := [0x41]
  const H: bytes := [0x48]
  const G: bytes := [0x67]

  /** The pattern as it is parsed, `f(__META_AST_A__0)`. */
  const SUBSTITUTED: bytes :=
    [0x66, 0x28, 0x5F, 0x5F, 0x4D, 0x45, 0x54, 0x41, 0x5F, 0x41, 0x53, 0x54, 0x5F, 0x41, 0x5F, 0x5F, 0x30, 0x29]

  function Leafy(kind: string, named: bool, start: nat, end: nat): Node {
    Node(kind, named, start, end, 0, "", [])
  }

  function CallOf(name: Node, args: Node): Node {
    Node("call_expression", true, name.start, args.end, 0, "", [name, args])
  }

  function ArgsOf(open: Node, arg: Node, close: Node): Node {
    Node("argument_list", true, open.start, close.end, 0, "", [open, arg, close])
  }

  function Hole(): Node {
    Leafy("identifier", true, 2, 17)
  }

  function PatternArgs(): Node {
    ArgsOf(Leafy("(", false, 1, 2), Hole(), Leafy(")", false, 17, 18))
  }

  function CallPattern(): PatternTree {
    PatternTree(CallOf(Leafy("identifier", true, 0, 1), PatternArgs()), SUBSTITUTED,
                map[Range(2, 17) := Placeholder(A, KindNode)], LangConfig([], ["comment"], [], false), false)
  }

  function Inner(): Node {
    CallOf(Leafy("identifier", true, 3, 4), ArgsOf(Leafy("(", false, 4, 5), Leafy("identifier", true, 5, 6), Leafy(")", false, 6, 7)))
  }

  function CallArgs(): Node {
    ArgsOf(Leafy("(", false, 1, 2), Inner(), Leafy(")", false, 8, 9))
  }

  function CallNode(): Node {
    CallOf(Leafy("identifier", true, 0, 1), CallArgs())
  }

  function Argument(): Capture {
    Capture(CALL[3..7], "call_expression", 1, 3, 7, [])
  }

  function Handle(): Capture {
    Capture(CALL[3..4], "identifier", 1, 3, 4, [])
  }

  function ArgsDeriv(): Deriv {
    Kids(One(Leaf, One(Leaf, One(Leaf, Done))))
  }

  function CallDeriv(): Deriv {
    Kids(One(Leaf, One(ArgsDeriv(), Done)))
  }

  function CallTrace(): seq<Event> {
    [Aligned(TokenAlign(0, 1, 0, 1)), Aligned(TokenAlign(1, 2, 1, 2)), Bound(A, Argument(), Range(2, 17)),
     Aligned(TokenAlign(17, 18, 8, 9))]
  }

  lemma LeafyHolds(kind: string, named: bool, ps: nat, pe: nat, ts: nat, te: nat)
    requires (ps, pe) != (2, 17) && Slice(SUBSTITUTED, ps, pe) == Slice(CALL, ts, te)
    ensures Derives(CallPattern(), Leafy(kind, named, ps, pe), Leafy(kind, named, ts, te), CALL, Leaf,
                    [Aligned(TokenAlign(ps, pe, ts, te))])
  {
    hide Derives, PatternArgs, CallOf;
    TokenHolds(CallPattern(), Leafy(kind, named, ps, pe), Leafy(kind, named, ts, te), CALL);
  }

  lemma ArgumentHolds()
    ensures Derives(CallPattern(), Hole(), Inner(), CALL, Leaf, [Bound(A, Argument(), Range(2, 17))])
  {
    InnerIs();
    HoleIs();
    hide *;
    HoleHolds(CallPattern(), Hole(), Inner(), CALL, A);
  }

  lemma InnerIs()
    ensures SameSpanChild(Inner()).None? && NodeToCapture(Inner(), CALL) == Argument()
  {
    var n := Inner();
    InnerParts();
    hide Inner, SameSpanChild;
    TwoNamed(n, n.children[0], n.children[1]);
  }

  lemma InnerParts()
    ensures |Inner().children| == 2 && Inner().children[0].named && Inner().children[1].named
    ensures Inner().start == 3 && Inner().end == 7 && Inner().row == 0 && Inner().kind == "call_expression" && Inner().named
  {
  }

  lemma HoleIs()
    ensures Bare(CallPattern(), Hole()) && Lookup(CallPattern(), Hole()) == Some(Placeholder(A, KindNode)) && A != []
    ensures Hole().start == 2 && Hole().end == 17 && Hole().named
  {
    hide PatternArgs, CallOf;
  }

  /** The pattern tree has no sequence, no layout tokens and nothing compared as whole text. */
  predicate Simple(pt: PatternTree) {
    !pt.hasSeq && pt.cfg == LangConfig([], ["comment"], [], false)
  }

  lemma CallPatternIs()
    ensures Simple(CallPattern()) && CallPattern().placeholders == map[Range(2, 17) := Placeholder(A, KindNode)]
    ensures CallPattern().source == SUBSTITUTED
  {
    hide CallOf, PatternArgs;
  }

  lemma ArgsHold()
    ensures Derives(CallPattern(), PatternArgs(), CallArgs(), CALL, ArgsDeriv(), CallTrace()[1..])
  {
    TokensHold();
    ArgumentHolds();
    ArgsAre();
    var pt, p, t, tr := CallPattern(), PatternArgs(), CallArgs(), CallTrace();
    TraceParts();
    var open, close, close' := Leafy("(", false, 1, 2), Leafy(")", false, 17, 18), Leafy(")", false, 8, 9);
    hide *;
    ThreeHold(pt, p, open, Hole(), close, open, Inner(), close', CALL, [tr[1]], [tr[2]], [tr[3]]);
    KidsHold(pt, p, t, CALL, One(Leaf, One(Leaf, One(Leaf, Done))), tr[1..]);
  }

  lemma TokensHold()
    ensures var tr := CallTrace();
            && Derives(CallPattern(), Leafy("identifier", true, 0, 1), Leafy("identifier", true, 0, 1), CALL, Leaf, [tr[0]])
            && Derives(CallPattern(), Leafy("(", false, 1, 2), Leafy("(", false, 1, 2), CALL, Leaf, [tr[1]])
            && Derives(CallPattern(), Leafy(")", false, 17, 18), Leafy(")", false, 8, 9), CALL, Leaf, [tr[3]])
  {
    hide Derives, CallPattern, Leafy, Argument;
    SameTexts();
    LeafyHolds("identifier", true, 0, 1, 0, 1);
    LeafyHolds("(", false, 1, 2, 1, 2);
    LeafyHolds(")", false, 17, 18, 8, 9);
  }

  lemma SameTexts()
    ensures Slice(SUBSTITUTED, 0, 1) == Slice(CALL, 0, 1) && Slice(SUBSTITUTED, 1, 2) == Slice(CALL, 1, 2)
    ensures Slice(SUBSTITUTED, 17, 18) == Slice(CALL, 8, 9)
  {
    assert |SUBSTITUTED| == 18 && |CALL| == 9;
    assert SUBSTITUTED[0] == CALL[0] && SUBSTITUTED[1] == CALL[1] && SUBSTITUTED[17] == CALL[8];
    assert SUBSTITUTED[0..1] == [SUBSTITUTED[0]] && CALL[0..1] == [CALL[0]];
    assert SUBSTITUTED[1..2] == [SUBSTITUTED[1]] && CALL[1..2] == [CALL[1]];
    assert SUBSTITUTED[17..18] == [SUBSTITUTED[17]] && CALL[8..9] == [CALL[8]];
  }

  lemma TraceParts()
    ensures |CallTrace()| == 4 && CallTrace()[2] == Bound(A, Argument(), Range(2, 17))
    ensures var tr := CallTrace(); tr[1..] == [tr[1]] + ([tr[2]] + [tr[3]]) && tr == [tr[0]] + tr[1..]
    ensures ArgsDeriv() == Kids(One(Leaf, One(Leaf, One(Leaf, Done)))) && CallDeriv() == Kids(One(Leaf, One(ArgsDeriv(), Done)))
  {
    hide Argument;
  }

  lemma ArgsAre()
    ensures var pt, p, t := CallPattern(), PatternArgs(), CallArgs();
            && Bare(pt, p) && Lookup(pt, p).None? && !IsOpaque(pt, p.kind) && p.kind == t.kind && KeepsTokens(pt)
            && p.children == [Leafy("(", false, 1, 2), Hole(), Leafy(")", false, 17, 18)]
            && t.children == [Leafy("(", false, 1, 2), Inner(), Leafy(")", false, 8, 9)]
            && !IsIgnorableComment(Leafy("(", false, 1, 2), pt.cfg.commentKinds)
            && !IsIgnorableComment(Leafy(")", false, 8, 9), pt.cfg.commentKinds)
            && !IsIgnorableComment(Inner(), pt.cfg.commentKinds)
  {
    CallPatternIs();
    InnerParts();
    HoleIs();
    var p := PatternArgs();
    hide Inner, SameSpanChild, CallPattern, CallOf, Hole, Lookup;
    OneNamed(p, Leafy("(", false, 1, 2), Hole(), Leafy(")", false, 17, 18));
    NoHole(CallPattern(), p);
  }

  lemma NoHole(pt: PatternTree, p: Node)
    requires |NamedOnly(p.children)| > 0
    ensures Lookup(pt, p).None?
  {
  }

  /** The derivation of the match, and what it records. */
  lemma CallHolds()
    ensures Derives(CallPattern(), CallPattern().root, CallNode(), CALL, CallDeriv(), CallTrace())
  {
    TokensHold();
    ArgsHold();
    CallIs();
    TraceParts();
    var pt, p, t, name, tr := CallPattern(), CallPattern().root, CallNode(), Leafy("identifier", true, 0, 1), CallTrace();
    hide *;
    TwoHold(pt, p, name, PatternArgs(), 0, name, CallArgs(), CALL, Leaf, ArgsDeriv(), [tr[0]], tr[1..]);
    KidsHold(pt, p, t, CALL, One(Leaf, One(ArgsDeriv(), Done)), tr);
  }

  lemma CallIs()
    ensures var pt, p, t := CallPattern(), CallPattern().root, CallNode();
            && Bare(pt, p) && Lookup(pt, p).None? && !IsOpaque(pt, p.kind) && p.kind == t.kind && KeepsTokens(pt)
            && p.children == [Leafy("identifier", true, 0, 1), PatternArgs()]
            && t.children == [Leafy("identifier", true, 0, 1), CallArgs()]
            && !IsIgnorableComment(Leafy("identifier", true, 0, 1), pt.cfg.commentKinds)
            && !IsIgnorableComment(CallArgs(), pt.cfg.commentKinds)
  {
    CallPatternIs();
    ArgsNamed();
    var p := CallPattern().root;
    hide SameSpanChild, PatternArgs, CallArgs, Lookup;
    TwoNamed(p, Leafy("identifier", true, 0, 1), PatternArgs());
    NoHole(CallPattern(), p);
  }

  lemma ArgsNamed()
    ensures PatternArgs().named && CallArgs().named && CallArgs().kind == "argument_list"
  {
  }

  // ----- what the match records -----

  function CallRecords(): Records {
    Records(map[A := Argument()], [TokenAlign(0, 1, 0, 1), TokenAlign(1, 2, 1, 2), TokenAlign(17, 18, 8, 9)], [], [])
  }

  lemma TraceRecords()
    ensures var tr := CallTrace();
            Rebind(map[], tr) == CallRecords().byName && AlignsOf(tr) == CallRecords().aligns && CommentsOf(tr) == []
  {
    hide Argument;
    var tr := CallTrace();
    var t1, t2, t3, t4 := tr[1..], tr[2..], tr[3..], tr[4..];
    assert t1[1..] == t2 && t2[1..] == t3 && t3[1..] == t4 && t4 == [];
    assert Rebind(map[A := Argument()], t3) == map[A := Argument()];
    assert AlignsOf(t3) == [TokenAlign(17, 18, 8, 9)] && AlignsOf(t2) == AlignsOf(t3) && CommentsOf(t2) == CommentsOf(t3) == [];
  }

  lemma CallRecordsAre()
    ensures NodeHolds(CallPattern(), CallPattern().root, CallNode(), CALL, CallDeriv())
    ensures RecordsOf(CallPattern(), CallNode(), CALL, CallDeriv()) == CallRecords()
  {
    CallHolds();
    TraceRecords();
    hide CallPattern, CallNode, CallDeriv, CallTrace, NodeHolds, NodeTrace, NodeDropped, Rebind, AlignsOf, CommentsOf;
  }

  // ----- the where-tree -----

  /** `contains_pattern` on `$A` for `g`, called `H`. */
  function HandleWhere(): WhereTree.WhereNode {
    WhereTree.WhereNode([], [], None, None, None, None, None, None, None, Some(WhereTree.SubPattern(A, G, [], None, H)), None)
  }

  /** The evaluation: the leaf held, and its handle stands for the identifier found. */
  function HandleRun(): Run {
    Run.Run([], [], None, [Ok(true)], HandleLog(), Ok(true))
  }

  function HandleLog(): seq<Binding> {
    [Binding(H, Handle(), map[IMPLICIT := Handle()])]
  }

  lemma HandleRunMeans()
    ensures Means(HandleWhere(), HandleRun()) && Log(HandleRun()) == HandleLog()
    ensures Declared(HandleLog(), WhereTree.Exports(HandleWhere()))
  {
    HandleExported();
    hide WhereTree.Exports, Handle;
    assert HandlesOf(HandleLog()) == [H];
  }

  lemma HandleExported()
    ensures Writes(Binding(H, Handle(), map[IMPLICIT := Handle()])) <= WhereTree.Exports(HandleWhere()) && H != []
  {
    var w, keys := HandleWhere(), WhereTree.ExportedAll(H, {IMPLICIT});
    assert IMPLICIT in WhereTree.Base(G);
    hide Handle, WhereTree.NamesOf;
    assert WhereTree.LeafExports(w.contains) <= WhereTree.Exports(w);
  }

  /** The template lexes as one placeholder. */
  lemma TemplateNames()
    ensures WhereTree.NamesOf(TEMPLATE) == {A}
  {
    var t := Token(A, KindNode, 2, 4);
    TemplateLexes();
    hide LexAll, Trim;
    assert ParsePattern(TEMPLATE) == Ok([t]);
    assert t in [t] && t.name == A != [];
  }

  lemma TemplateLexes()
    ensures LexAll(TEMPLATE, 0) == Ok([Token(A, KindNode, 2, 4)]) && Trim(TEMPLATE) != [] && !(RAW_PREFIX <= Trim(TEMPLATE))
  {
    assert TEMPLATE[2..4] == Dollars(1) + A;
    SpliceIdentity.RefLexes(TEMPLATE, 2, A, 1);
    TrimKeepsInk(TEMPLATE, 0);
    hide Lex, Trim;
    assert |RAW_PREFIX| > |TEMPLATE|;
    assert LexAll(TEMPLATE, 5) == Ok([]);
    assert LexAll(TEMPLATE, 4) == Ok([]);
    assert [Token(A, KindNode, 2, 4)] + [] == [Token(A, KindNode, 2, 4)];
    assert LexAll(TEMPLATE, 2) == Ok([Token(A, KindNode, 2, 4)]);
    assert LexAll(TEMPLATE, 1) == LexAll(TEMPLATE, 2);
  }

  lemma LeafNames(pt: PatternTree, n: Node)
    requires n.children == []
    ensures AllNames(pt, n) == OwnName(pt, n)
  {
  }

  lemma InnerNames(pt: PatternTree, n: Node)
    requires Lookup(pt, n).None?
    ensures AllNames(pt, n) == AllNamesOf(pt, n.children)
  {
  }

  lemma TwoNames(pt: PatternTree, a: Node, b: Node)
    ensures AllNamesOf(pt, [a, b]) == AllNames(pt, a) + AllNames(pt, b)
  {
    hide AllNames;
    assert [a, b][1..] == [b] && [b][1..] == [];
    assert AllNamesOf(pt, [b]) == AllNames(pt, b) + [];
  }

  lemma ThreeNames(pt: PatternTree, a: Node, b: Node, c: Node)
    ensures AllNamesOf(pt, [a, b, c]) == AllNames(pt, a) + (AllNames(pt, b) + AllNames(pt, c))
  {
    hide AllNames;
    assert [a, b, c][1..] == [b, c];
    TwoNames(pt, b, c);
  }

  lemma LeafyNames(kind: string, named: bool, start: nat, end: nat)
    ensures OwnName(CallPattern(), Leafy(kind, named, start, end)) == if (start, end) == (2, 17) then [A] else []
  {
    CallPatternIs();
    hide CallPattern;
  }

  lemma CallNames()
    ensures AllNames(CallPattern(), CallPattern().root) == [A]
  {
    var pt, name, open, close := CallPattern(), Leafy("identifier", true, 0, 1), Leafy("(", false, 1, 2), Leafy(")", false, 17, 18);
    CallIs();
    ArgsAre();
    LeafyNames("identifier", true, 0, 1);
    LeafyNames("(", false, 1, 2);
    LeafyNames("identifier", true, 2, 17);
    LeafyNames(")", false, 17, 18);
    LeafNames(pt, name);
    LeafNames(pt, open);
    LeafNames(pt, Hole());
    LeafNames(pt, close);
    hide *;
    InnerNames(pt, pt.root);
    TwoNames(pt, name, PatternArgs());
    InnerNames(pt, PatternArgs());
    ThreeNames(pt, open, Hole(), close);
    HoleIsLeafy();
    assert [] + ([] + ([A] + [])) == [A];
  }

  lemma HoleIsLeafy()
    ensures Hole() == Leafy("identifier", true, 2, 17)
  {
  }

  /** The tree holds the text's placeholder and no other. */
  lemma CallCompiled()
    ensures CompiledFrom(CallPattern(), TEMPLATE)
  {
    TemplateNames();
    CallNames();
    hide AllNames, WhereTree.NamesOf, CallPattern;
  }

  /** The check accepts the where-tree for the pattern. */
  lemma HandleAccepted()
    ensures WhereTree.Accepted(HandleWhere(), WhereTree.Base(TEMPLATE), [])
  {
    var w, level := HandleWhere(), WhereTree.LevelOf(HandleWhere(), WhereTree.Base(TEMPLATE));
    ArgumentResolves();
    HandleWhereIs();
    hide WhereTree.RefOk, WhereTree.LevelOf, WhereTree.Base, WhereTree.RefsOk, WhereTree.NestedOk, HandleWhere;
    WhereTree.LeavesAccepted(w, [level]);
    assert [level] + [] == [level];
  }

  lemma ArgumentResolves()
    ensures WhereTree.RefOk([WhereTree.LevelOf(HandleWhere(), WhereTree.Base(TEMPLATE))], A)
  {
    TemplateNames();
    hide WhereTree.NamesOf, WhereTree.Handles, WhereTree.Exports, WhereTree.RefOk, HandleWhere;
    assert !(WhereTree.STEP_OUT <= A);
    WhereTree.PlainRefOk(WhereTree.LevelOf(HandleWhere(), WhereTree.Base(TEMPLATE)), A, 0);
  }

  lemma HandleWhereIs()
    ensures var w := HandleWhere();
            && w.all == [] && w.any == [] && w.negated.None? && w.inside.None? && WhereTree.OwnRefs(w) == [A]
            && w.contains.Some? && w.contains.value.where.None?
  {
  }

  // ----- the filtered match -----

  function OwnCaptures(): map<bytes, Capture> {
    CallRecords().byName[IMPLICIT := NodeToCapture(CallNode(), CALL)]
  }

  /** The match as the where-tree leaves it. */
  function FilteredCall(): RawMatch {
    RawMatch(map[OUTER := NodeToCapture(CallNode(), CALL), A := Argument(), H := Handle(),
                 WhereTree.Exported(H, IMPLICIT) := Handle()],
             CallRecords().aligns, [], [])
  }

  lemma OneHandle(m: map<bytes, Capture>, handle: bytes, c: Capture)
    requires Dotless(m.Keys)
    ensures WithBinding(m, Binding(handle, c, map[IMPLICIT := c])) == m[handle := c][WhereTree.Exported(handle, IMPLICIT) := c]
  {
    var b, key := Binding(handle, c, map[IMPLICIT := c]), WhereTree.Exported(handle, IMPLICIT);
    assert (handle + [WhereTree.DOT])[|handle|] == WhereTree.DOT;
    assert handle + [WhereTree.DOT] <= key && key[|handle| + 1..] == IMPLICIT;
    assert Writes(b) == {handle, key};
    assert Cleared(m, handle) == m;
    hide WhereTree.Exported, Writes, Cleared, Dotless;
  }

  lemma FilteredCallIs()
    requires NodeHolds(CallPattern(), CallPattern().root, CallNode(), CALL, CallDeriv())
    ensures FilteredOf(CallPattern(), CallNode(), CALL, [], CallDeriv(), HandleLog()) == FilteredCall()
  {
    CallRecordsAre();
    ReplayedCaptures();
    RecordsParts();
    hide *;
    FilteredIsCopied(CallPattern(), CallNode(), CALL, [], CallDeriv(), HandleLog());
    OwnIs(CallPattern(), CallNode(), CALL, CallDeriv());
    CopiedIs(CallRecords().(byName := Replay(OwnCaptures(), HandleLog())));
  }

  lemma RecordsParts()
    ensures OwnCaptures() == CallRecords().byName[IMPLICIT := NodeToCapture(CallNode(), CALL)]
    ensures CallRecords().dropped == [] && CallRecords().comments == []
  {
    hide NodeToCapture, CallNode, Argument;
  }

  /** The captures without the implicit one, beside the matched node. */
  lemma ReplayedCaptures()
    ensures map[OUTER := NodeToCapture(CallNode(), CALL)] + (Replay(OwnCaptures(), HandleLog()) - {IMPLICIT}) == FilteredCall().captures
  {
    var own, o := OwnCaptures(), NodeToCapture(CallNode(), CALL);
    assert Dotless(own.Keys);
    hide WithBinding, NodeToCapture, Argument, Handle, Replay, WhereTree.Exported, Dotless, CallNode;
    OneHandle(own, H, Handle());
    ReplayOne(own, HandleLog()[0]);
    Distinct();
    CopiedMap(Argument(), Handle(), o, A, H, WhereTree.Exported(H, IMPLICIT));
  }

  lemma CopiedIs(rec: Records)
    requires rec.aligns == CallRecords().aligns && rec.dropped == [] && rec.comments == []
    requires map[OUTER := NodeToCapture(CallNode(), CALL)] + (rec.byName - {IMPLICIT}) == FilteredCall().captures
    ensures CopiedOut(CallNode(), rec, CALL, []) == FilteredCall()
  {
    hide NodeToCapture, CallNode, Argument, Handle, WhereTree.Exported;
    assert [] + rec.dropped == [];
  }

  lemma ReplayOne(m: map<bytes, Capture>, b: Binding)
    ensures Replay(m, [b]) == WithBinding(m, b)
  {
    hide WithBinding;
    assert [b][..0] == [];
  }

  lemma CopiedMap(arg: Capture, c: Capture, o: Capture, a: bytes, h: bytes, key: bytes)
    requires a !in {OUTER, IMPLICIT, h} && h !in {OUTER, IMPLICIT} && key !in {OUTER, IMPLICIT, a, h} && OUTER != IMPLICIT
    ensures map[OUTER := o] + (map[a := arg][IMPLICIT := o][h := c][key := c] - {IMPLICIT})
         == map[OUTER := o, a := arg, h := c, key := c]
  {
  }

  lemma Distinct()
    ensures OUTER != A && OUTER != H && A != H && IMPLICIT != A && IMPLICIT != H && IMPLICIT != OUTER
    ensures WhereTree.Exported(H, IMPLICIT) !in {OUTER, A, H, IMPLICIT, []}
  {
    assert |OUTER| == 5 && |A| == 1 && |H| == 1 && |IMPLICIT| == 6 && |WhereTree.Exported(H, IMPLICIT)| == 8;
    assert A[0] != H[0];
  }

  /** The literal tokens and the handle. */
  function HandleAnchor(): seq<Anchor> {
    [Anchor([], [0x66], 0, 1, 0, 1), Anchor([], [0x28], 1, 2, 1, 2), NamedAnchor(H, Handle()), Anchor([], [0x29], 8, 9, 17, 18)]
  }

  lemma CallCandidates(x: Anchor)
    ensures var outer := NodeToCapture(CallNode(), CALL);
            Candidate(FilteredCall(), CALL, outer, x)
            <==> x in HandleAnchor() || x == NamedAnchor(A, Argument()) || x == NamedAnchor(WhereTree.Exported(H, IMPLICIT), Handle())
  {
    var f, outer := FilteredCall(), NodeToCapture(CallNode(), CALL);
    Distinct();
    var a := f.alignment;
    assert a[0] in a && a[1] in a && a[2] in a;
    assert CALL[0..1] == [0x66] && CALL[1..2] == [0x28] && CALL[8..9] == [0x29];
    assert HandleAnchor()[0] == LiteralAnchor(a[0], CALL) && HandleAnchor()[1] == LiteralAnchor(a[1], CALL)
           && HandleAnchor()[3] == LiteralAnchor(a[2], CALL);
    hide WhereTree.Exported, Slice;
    var s := HandleAnchor();
    assert s[0] in s && s[1] in s && s[2] in s && s[3] in s;
  }

  lemma CallAnchorList()
    ensures AnchorList(FilteredCall(), CALL, NodeToCapture(CallNode(), CALL), HandleAnchor())
  {
    var f, outer, kept := FilteredCall(), NodeToCapture(CallNode(), CALL), HandleAnchor();
    assert kept[2] in kept;
    forall x ensures Candidate(f, CALL, outer, x) ==> x in kept || Shadowed(x, kept) {
      CallCandidates(x);
      if x == NamedAnchor(A, Argument()) || x == NamedAnchor(WhereTree.Exported(H, IMPLICIT), Handle()) {
        assert Before(kept[2], x);
      }
    }
    forall k | k in kept ensures Candidate(f, CALL, outer, k) {
      CallCandidates(k);
    }
    hide Candidate, Shadowed;
  }

  function CallContext(): Context {
    ContextOf(FilteredCall(), TEMPLATE, HandleAnchor())
  }

  /** The head scan takes `f` and `(` and stops at the reference. */
  lemma CallHead()
    ensures HeadScan(CallContext()) == Scan(2, 2, [])
  {
    hide HeadFrom;
    HeadTakes(0);
    HeadTakes(1);
    HeadStops();
  }

  lemma HeadTakes(k: nat)
    requires k < 2
    ensures HeadFrom(CallContext(), k, k, []) == HeadFrom(CallContext(), k + 1, k + 1, [])
  {
    hide HeadFrom, RefHead, IsReference;
    HeadStep(CallContext(), k, k, []);
    SpliceIdentity.NoRefWithoutDollar(TEMPLATE, k);
    assert TEMPLATE[k..][..1] == [TEMPLATE[k]];
  }

  lemma HeadStops()
    ensures HeadFrom(CallContext(), 2, 2, []) == Scan(2, 2, [])
  {
    hide HeadFrom, RefHead, IsReference, LiteralAt, Pay;
    Distinct();
    HeadStep(CallContext(), 2, 2, []);
    assert TEMPLATE[2..4] == Dollars(1) + A;
    SpliceIdentity.RefHeadReads(TEMPLATE, 2, A, 1);
  }

  /** The tail scan takes `)` and stops there too. */
  lemma CallTail()
    ensures TailScan(CallContext()) == Scan(1, 4, [])
  {
    hide TailFrom, HeadFrom, HeadScan;
    CallHead();
    TailTakes();
    TailStops();
  }

  lemma TailTakes()
    ensures TailFrom(CallContext(), Scan(2, 2, []), 5, 0, []) == TailFrom(CallContext(), Scan(2, 2, []), 4, 1, [])
  {
    hide TailFrom, RefTail, IsReference, Pay;
    TailStep(CallContext(), Scan(2, 2, []), 5, 0, []);
    NoWordAt(TEMPLATE, 5);
    assert TEMPLATE[4..5] == [0x29];
  }

  lemma TailStops()
    ensures TailFrom(CallContext(), Scan(2, 2, []), 4, 1, []) == Scan(1, 4, [])
  {
    hide TailFrom, RefTail, IsReference, LiteralUpTo, Pay;
    Distinct();
    TailStep(CallContext(), Scan(2, 2, []), 4, 1, []);
    RefTailReads(TEMPLATE);
  }

  lemma NoWordAt(s: bytes, j: nat)
    requires 0 < j <= |s| && !IsIdentCont(s[j - 1])
    ensures RefTail(s, j).None?
  {
  }

  lemma RefTailReads(s: bytes)
    requires s == TEMPLATE
    ensures RefTail(s, 4) == Some(Reference(A, 2))
  {
    hide IsReference;
    assert WordStart(s, 3) == 3 && WordStart(s, 4) == 3;
    assert DollarsBefore(s, 2) == 0 && DollarsBefore(s, 3) == 1;
    assert s[3..4] == A;
  }

  lemma CallRenders()
    ensures SplitEdges([DOLLAR, 0x41]) == ([], [DOLLAR, 0x41], [])
    ensures Interpolated([DOLLAR, 0x41], FilteredCall().captures) == Ok(CALL[3..7])
  {
    var s, caps := [DOLLAR, 0x41], FilteredCall().captures;
    Distinct();
    assert LeadSpace(s) == 0 && TrailSpace(s) == 0;
    hide LeadSpace, TrailSpace, Render, Lex;
    assert s[..0] == [] && s[0..2] == s && s[2..] == [];
    assert s[0..2] == Dollars(1) + A;
    SpliceIdentity.RefLexes(s, 0, A, 1);
    RenderStep(s, 0, caps);
    RenderStep(s, 2, caps);
    assert CALL[3..7] + [] == CALL[3..7];
  }

  /** The anchor list is the one with the handle, and no other holds the argument's anchor. */
  ghost predicate ArgumentLost(f: RawMatch) {
    && AnchorList(f, CALL, NodeToCapture(CallNode(), CALL), HandleAnchor())
    && forall kept | AnchorList(f, CALL, NodeToCapture(CallNode(), CALL), kept) :: NamedAnchor(A, Argument()) !in kept
  }

  /** The rewrite of `f( g(x) )` by its own pattern is `f(g(x))`. */
  predicate SpacesLost(f: RawMatch) {
    && Anchorable(f, CALL) && Tiling(HandleAnchor(), f.captures[OUTER].start, f.captures[OUTER].end)
    && Spliced(f, TEMPLATE, CALL, HandleAnchor()) == Ok([0x66, 0x28, 0x67, 0x28, 0x78, 0x29, 0x29])
  }

  /** The pattern's own text, used as the template, loses the spaces around the argument: the handle has taken the
      argument's anchor. */
  lemma HandleHidesTheArgument()
    ensures NodeHolds(CallPattern(), CallPattern().root, CallNode(), CALL, CallDeriv())
    ensures CompiledFrom(CallPattern(), TEMPLATE) && WhereTree.Accepted(HandleWhere(), WhereTree.Base(TEMPLATE), [])
    ensures Means(HandleWhere(), HandleRun()) && HandleRun().result == Ok(true)
            && Log(HandleRun()) == HandleLog() && Declared(HandleLog(), WhereTree.Exports(HandleWhere()))
    ensures var f := FilteredOf(CallPattern(), CallNode(), CALL, [], CallDeriv(), HandleLog()); ArgumentLost(f) && SpacesLost(f)
    ensures NodeTrace(CallPattern(), CallPattern().root, CallNode(), CALL, CallDeriv()) == CallTrace()
            && PatternTemplate.Restored(CallPattern(), CallTrace(), 0, 18) == TEMPLATE
  {
    CallHolds();
    DerivesMeans(CallPattern(), CallPattern().root, CallNode(), CALL, CallDeriv(), CallTrace());
    CallCompiled();
    HandleAccepted();
    HandleRunMeans();
    FilteredCallIs();
    FilteredCallLoses();
    TemplateIsThePattern();
    HandleRunTrue();
    hide *;
  }

  lemma HandleRunTrue()
    ensures HandleRun().result == Ok(true)
  {
  }

  lemma DerivesMeans(pt: PatternTree, p: Node, t: Node, src: bytes, d: Deriv, tr: seq<Event>)
    requires Derives(pt, p, t, src, d, tr)
    ensures NodeHolds(pt, p, t, src, d) && NodeTrace(pt, p, t, src, d) == tr
  {
    hide NodeHolds, NodeTrace, NodeDropped;
  }

  lemma FilteredCallLoses()
    ensures ArgumentLost(FilteredCall()) && SpacesLost(FilteredCall())
  {
    ArgumentIsLost();
    CallAnchorList();
    CallSpliced();
    OuterIs();
    BytesLeft();
    hide AnchorList, FilteredCall, Spliced, Tiling, HandleAnchor, CallNode, NodeToCapture, Argument, Anchorable;
  }

  lemma BytesLeft()
    ensures CALL[0..2] + CALL[3..7] + CALL[8..9] == [0x66, 0x28, 0x67, 0x28, 0x78, 0x29, 0x29]
  {
  }

  lemma OuterIs()
    ensures OUTER in FilteredCall().captures && FilteredCall().captures[OUTER] == NodeToCapture(CallNode(), CALL)
    ensures NodeToCapture(CallNode(), CALL).start == 0 && NodeToCapture(CallNode(), CALL).end == 9
  {
    Distinct();
    hide WhereTree.Exported, Handle, Argument, Slice;
  }

  lemma ArgumentIsLost()
    ensures forall kept | AnchorList(FilteredCall(), CALL, NodeToCapture(CallNode(), CALL), kept) :: NamedAnchor(A, Argument()) !in kept
  {
    var outer, x, h := NodeToCapture(CallNode(), CALL), NamedAnchor(A, Argument()), NamedAnchor(H, Handle());
    assert h == HandleAnchor()[2];
    CallCandidates(h);
    hide AnchorList, FilteredCall, Candidate, HandleAnchor, CallNode;
    forall kept | AnchorList(FilteredCall(), CALL, outer, kept) ensures x !in kept {
      SameStartShorterWins(FilteredCall(), CALL, outer, kept, x, h);
    }
  }

  /** The template is the pattern's text, its placeholder written back. */
  lemma TemplateIsThePattern()
    ensures PatternTemplate.Restored(CallPattern(), CallTrace(), 0, 18) == TEMPLATE
  {
    var pt, tr := CallPattern(), CallTrace();
    CallPatternIs();
    hide CallPattern, Argument;
    var t1, t2, t3, t4 := tr[1..], tr[2..], tr[3..], tr[4..];
    assert t1[1..] == t2 && t2[1..] == t3 && t3[1..] == t4 && t4 == [];
    assert PatternTemplate.DollarsOf(pt, Range(2, 17)) == 1 && Dollars(1) == [DOLLAR];
    hide Dollars, PatternTemplate.DollarsOf;
    assert PatternTemplate.Restored(pt, t4, 18, 18) == [];
    assert PatternTemplate.Restored(pt, t3, 17, 18) == [0x29];
    assert PatternTemplate.Restored(pt, t2, 2, 18) == [DOLLAR, 0x41, 0x29];
    assert PatternTemplate.Restored(pt, t1, 1, 18) == [0x28, DOLLAR, 0x41, 0x29];
  }

  lemma CallSpliced()
    ensures Anchorable(FilteredCall(), CALL) && Tiling(HandleAnchor(), 0, 9)
    ensures Spliced(FilteredCall(), TEMPLATE, CALL, HandleAnchor()) == Ok(CALL[0..2] + CALL[3..7] + CALL[8..9])
  {
    Distinct();
    CallHead();
    CallTail();
    CallRenders();
    hide HeadScan, TailScan, SplitEdges, Interpolated, Recovered, ProbeEnd, Trim;
    assert !AnyCommentIn([], 2, 8);
    NoCommentEdges(CALL, 2, 8, []);
    assert TEMPLATE[2..4] == [DOLLAR, 0x41];
    assert [] + [] + CALL[3..7] + [] + [] == CALL[3..7];
  }
}
