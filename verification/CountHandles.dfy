/**
 When counting a file agrees with matching it. Matching keys a match by its "match" capture, counting by the
 node tried; the where-tree may bind a handle of that name and move the one away from the other. Whether it
 can is read off the tree.
 */
module CountHandles {
  import opened Bytes
  import opened Outcomes
  import opened SyntaxTree
  import opened MatchRecords
  import opened WhereTree
  import opened WhereEval
  import opened HandleReach
  import opened Derivations
  import opened RawMatches
  import Collect
  import HandleAnchors
  import PatternNames

  /** What stands under "match" once the where-tree held: the node tried, unless a handle took the name. */
  function KeptSpan(log: seq<Binding>, tried: Range): Range {
    match LastBound(log, OUTER)
    case None => tried
    case Some(c) => Range(c.start, c.end)
  }

  /** A match the where-tree let through, keyed by its "match" capture. */
  ghost predicate LetThrough(where: Option<WhereNode>, span: Range, tried: Range) {
    match where
    case None => span == tried
    case Some(w) => exists run :: Means(w, run) && run.result == Ok(true) && span == KeptSpan(Log(run), tried)
  }

  /** Every hit of the trials is such a match. */
  ghost predicate Filtered(where: Option<WhereNode>, trial: (nat, nat) -> Collect.Trial, at: nat -> Range) {
    forall v, n :: trial(v, n).Hit? ==> LetThrough(where, trial(v, n).m.span, at(n))
  }

  /** The tree foresees being true with a handle called "match" bound. */
  predicate MayMove(where: Option<WhereNode>) {
    where.Some? && Out(true, true) in Outs(where.value, OUTER)
  }

  /** The span is the one the reported match carries. */
  lemma ReportedSpan(pt: PatternTree, n: Node, src: bytes, absorbed: seq<Range>, d: Deriv, w: WhereNode, run: Run)
    requires PatternNames.Clear(pt, pt.root) && NodeHolds(pt, pt.root, n, src, d) && OUTER !in PatternNames.AllNames(pt, pt.root)
    requires Declared(Log(run), Exports(w))
    ensures var f := FilteredOf(pt, n, src, absorbed, d, Log(run));
            OUTER in f.captures
            && Range(f.captures[OUTER].start, f.captures[OUTER].end) == KeptSpan(Log(run), Range(n.start, n.end))
  {
    hide NodeHolds, PatternNames.Clear, PatternNames.AllNames, Declared, Exports, Log, LastBound, FilteredOf;
    HandleAnchors.ReplacedSpan(pt, n, src, absorbed, d, Log(run), w);
  }

  /** A tree no leaf of whose own level is called "match" exports no such key and never moves it. */
  lemma UndeclaredNeverMoves(w: WhereNode)
    ensures OUTER in Exports(w) <==> DeclaresHere(w, OUTER)
    ensures !DeclaresHere(w, OUTER) ==> !MayMove(Some(w))
  {
    hide Exports, DeclaresHere, Outs;
    HandleAnchors.NamesDiffer();
    ExportedIffDeclared(w, OUTER);
    if !DeclaresHere(w, OUTER) && Out(true, true) in Outs(w, OUTER) {
      UndeclaredNeverBound(w, OUTER, Out(true, true));
    }
  }

  lemma FilteredKeepsNode(where: Option<WhereNode>, trial: (nat, nat) -> Collect.Trial, at: nat -> Range)
    requires Filtered(where, trial, at) && !MayMove(where)
    ensures Collect.NodeKept(trial, at)
  {
    hide Means, Log, LastBound, Outs;
    if where.Some? {
      NeverBoundIff(where.value, OUTER);
    }
    forall v, n | trial(v, n).Hit? ensures trial(v, n).m.span == at(n) {
      assert LetThrough(where, trial(v, n).m.span, at(n));
    }
  }

  /** Counting agrees with matching, on every file and whatever its trials find, exactly when the where-tree
      foresees no true outcome that binds a handle called "match". */
  lemma CountingAgreesIff(where: Option<WhereNode>)
    ensures (forall trial, at, variants, walk | Filtered(where, trial, at) :: Collect.CountIsMatch(variants, walk, trial, at))
       <==> !MayMove(where)
  {
    hide Collect.CountIsMatch, Filtered, MayMove;
    if MayMove(where) {
      var trial, at, m := MovedMatchesCollapse(where);
      LengthsDiffer(TwoNodes(), [], trial, at, m);
    } else {
      forall trial, at, variants, walk | Filtered(where, trial, at) ensures Collect.CountIsMatch(variants, walk, trial, at) {
        FilteredKeepsNode(where, trial, at);
        Collect.CountsAreMatches(variants, walk, trial, at);
      }
    }
  }

  /** One variant whose query yields two nodes. */
  function TwoNodes(): seq<Collect.Variant> {
    [Collect.Variant(Some([0, 1]))]
  }

  lemma LengthsDiffer(variants: seq<Collect.Variant>, walk: seq<nat>, trial: (nat, nat) -> Collect.Trial, at: nat -> Range,
          m: Collect.FileMatch)
    requires Collect.Collected(variants, walk, Collect.Matching(trial)) == Ok([m])
    requires Collect.Collected(variants, walk, Collect.Counting(trial, at)).Ok?
    requires |Collect.Collected(variants, walk, Collect.Counting(trial, at)).value| == 2
    ensures !Collect.CountIsMatch(variants, walk, trial, at)
  {
    hide Collect.Collected;
    assert |Collect.Lights([m])| == 1;
  }

  /** Two nodes, side by side. */
  function SideBySide(): nat -> Range {
    (n: nat) => Range(10 * n + 10, 10 * n + 15)
  }

  /** Both nodes hit, and both matches carry the same span. */
  function BothHit(m: Collect.FileMatch): (nat, nat) -> Collect.Trial {
    (v: nat, n: nat) => if n < 2 then Collect.Hit(m) else Collect.Unmatched
  }

  /** A file of two nodes that matching reports as one match and counting as two. */
  lemma MovedMatchesCollapse(where: Option<WhereNode>)
    returns (trial: (nat, nat) -> Collect.Trial, at: nat -> Range, m: Collect.FileMatch)
    requires MayMove(where)
    ensures Filtered(where, trial, at)
    ensures Collect.Collected(TwoNodes(), [], Collect.Matching(trial)) == Ok([m])
    ensures Collect.Collected(TwoNodes(), [], Collect.Counting(trial, at)) == Ok([Collect.Light(at(0), m.kind), Collect.Light(at(1), m.kind)])
  {
    hide Means, Log, LastBound, Outs, Collect.Collected;
    var c := Capture([], "", 0, 0, 30, []);
    var run := OutsComplete(where.value, Out(true, true), OUTER, c);
    BoundIffInLog(Log(run), OUTER);
    LastBoundSelf(Log(run), OUTER, c);
    m := Collect.FileMatch("", Range(0, 30), "", "");
    trial, at := BothHit(m), SideBySide();
    Collect.MatchHandleCollapses(trial, at, m, m);
  }

  // ----- two trees -----

  function Empty(): WhereNode {
    WhereNode([], [], None, None, None, None, None, None, None, None, None)
  }

  /** The match lies inside a match of `pattern`, which the leaf calls "match". */
  function InsideAsMatch(pattern: bytes): WhereNode {
    Empty().(inside := Some(SubPattern(IMPLICIT, pattern, [], None, OUTER)))
  }

  function NotInsideAsMatch(pattern: bytes): WhereNode {
    Empty().(negated := Some(InsideAsMatch(pattern)))
  }

  /** One evaluation of the first tree: the leaf held and bound `c`. */
  function InsideRun(c: Capture): Run {
    Run.Run([], [], None, [Ok(true)], [Binding(OUTER, c, map[IMPLICIT := c])], Ok(true))
  }

  lemma InsideRunMeans(pattern: bytes, c: Capture)
    ensures Means(InsideAsMatch(pattern), InsideRun(c)) && Log(InsideRun(c)) == [Binding(OUTER, c, map[IMPLICIT := c])]
    ensures Declared(Log(InsideRun(c)), Exports(InsideAsMatch(pattern)))
  {
  }

  /** The check accepts the first tree for every pattern. */
  lemma InsideAccepted(pattern: bytes, outer: bytes)
    ensures Accepted(InsideAsMatch(pattern), Base(outer), [])
  {
    var w, level := InsideAsMatch(pattern), LevelOf(InsideAsMatch(pattern), Base(outer));
    ImplicitResolves(level);
    hide RefOk, LevelOf, Base, RefsOk, NestedOk;
    assert OwnRefs(w) == [IMPLICIT];
    LeavesAccepted(w, [level]);
    assert [level] + [] == [level];
  }

  lemma ImplicitResolves(level: Level)
    requires IMPLICIT in level.base
    ensures RefOk([level], IMPLICIT)
  {
    assert IMPLICIT[1] == OUTER[0];
    assert !(STEP_OUT <= IMPLICIT) by { assert STEP_OUT[1] != IMPLICIT[1]; }
    hide RefOk;
    PlainRefOk(level, IMPLICIT, 1);
  }

  /** The leaf fails, or holds and binds its handle. */
  lemma InsideOuts(pattern: bytes, o: Out)
    ensures o in Outs(InsideAsMatch(pattern), OUTER) <==> o.held == o.bound
  {
    var w := InsideAsMatch(pattern);
    OneStage(w, OUTER);
    FlagIs(w, OUTER);
    assert LeafFlags(w, OUTER) == [true];
    hide Outs, LeafFlags;
    OneFlag(o);
  }

  lemma OneFlag(o: Out)
    ensures o in FlagOuts([true]) <==> o.held == o.bound
  {
    hide FlagOuts;
    if o in FlagOuts([true]) {
      var k := FlagOutsComplete([true], o);
    }
    if o.held == o.bound {
      var k := if o.held then 1 else 0;
      assert [true][0];
      assert o.bound <==> Raised([true], k);
      FlagOutsSound([true], o, k);
    }
  }

  /** Two methods of one class, both inside what the leaf calls "match": one match, two counts. */
  lemma OneMatchTwoCounts(pattern: bytes, c: Capture, m: Collect.FileMatch)
    requires m.span == Range(c.start, c.end)
    ensures MayMove(Some(InsideAsMatch(pattern)))
    ensures Filtered(Some(InsideAsMatch(pattern)), BothHit(m), SideBySide())
    ensures Collect.Collected(TwoNodes(), [], Collect.Matching(BothHit(m))) == Ok([m])
    ensures Collect.Collected(TwoNodes(), [], Collect.Counting(BothHit(m), SideBySide()))
         == Ok([Collect.Light(Range(10, 15), m.kind), Collect.Light(Range(20, 25), m.kind)])
  {
    hide Means, Collect.Collected, Log, Outs;
    InsideOuts(pattern, Out(true, true));
    InsideRunMeans(pattern, c);
    var run := InsideRun(c);
    assert KeptSpan(Log(run), Range(0, 0)) == m.span by { OneBound(c); }
    forall v, n | BothHit(m)(v, n).Hit? ensures LetThrough(Some(InsideAsMatch(pattern)), m.span, SideBySide()(n)) {
      OneBound(c);
    }
    Collect.MatchHandleCollapses(BothHit(m), SideBySide(), m, m);
  }

  lemma OneBound(c: Capture)
    ensures LastBound([Binding(OUTER, c, map[IMPLICIT := c])], OUTER) == Some(c)
  {
  }

  /** A leaf of the own level may have the handle and the node still never moves: under `not` it is bound only
      where the tree fails. */
  lemma DeclaredYetNeverMoves(pattern: bytes)
    ensures DeclaresHere(NotInsideAsMatch(pattern), OUTER) && !MayMove(Some(NotInsideAsMatch(pattern)))
  {
    var w, inner := NotInsideAsMatch(pattern), InsideAsMatch(pattern);
    InsideOuts(pattern, Out(false, true));
    NoFlags(w, OUTER);
    OneStage(w, OUTER);
    hide Outs, LeafFlags, DeclaresHere;
    InsideDeclares(w, inner);
  }

  lemma NoFlags(w: WhereNode, handle: bytes)
    requires LeafCount(w) == 0
    ensures LeafFlags(w, handle) == []
  {
    FlagIs(w, handle);
    hide LeafFlags, LeafCount;
  }

  lemma InsideDeclares(w: WhereNode, inner: WhereNode)
    requires w.negated == Some(inner) && Names(inner.inside, OUTER)
    ensures DeclaresHere(w, OUTER)
  {
    assert DeclaresHere(inner, OUTER);
  }
}
