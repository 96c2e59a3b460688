/**
 One candidate node tried from a cleared accumulator and filtered by the where-tree, and the result a
 successful try hands on: a function of the surviving derivation and of the handles the where-tree bound.
 */
module RawMatches {
  import opened Bytes
  import opened Outcomes
  import opened SyntaxTree
  import opened MatchRecords
  import opened Derivations
  import opened GreedySearch
  import opened PatternNames
  import opened TraceOrder
  import opened Walker
  import WhereTree
  import opened WhereEval

  /** `captures` holds the outer node under "match" beside the placeholders' captures. */
  datatype RawMatch = RawMatch(captures: map<bytes, Capture>, alignment: seq<TokenAlign>,
                               dropped: seq<Range>, comments: seq<Range>)

  /** The last binding of a name in a trace. */
  function LastBinding(tr: seq<Event>, name: bytes): Option<Capture>
    decreases |tr|
  {
    if tr == [] then None
    else
      var later := LastBinding(tr[1..], name);
      if later.Some? then later
      else if tr[0].Bound? && tr[0].name == name then Some(tr[0].cap) else None
  }

  lemma {:induction false} RebindIsLastBinding(m: map<bytes, Capture>, tr: seq<Event>, name: bytes)
    ensures LastBinding(tr, name).Some? <==> name in NamesOf(tr)
    ensures var last := LastBinding(tr, name);
            if last.Some? then name in Rebind(m, tr) && Rebind(m, tr)[name] == last.value
            else SameAt(m, Rebind(m, tr), name)
    decreases |tr|
  {
    if tr != [] {
      RebindIsLastBinding(if tr[0].Bound? then m[tr[0].name := tr[0].cap] else m, tr[1..], name);
    }
  }

  /** The records one derivation leaves in a cleared accumulator. */
  function RecordsOf(pt: PatternTree, n: Node, src: bytes, d: Deriv): Records
    requires NodeHolds(pt, pt.root, n, src, d)
  {
    var tr := NodeTrace(pt, pt.root, n, src, d);
    Records(Rebind(map[], tr), AlignsOf(tr), NodeDropped(pt, pt.root, n, src, d), CommentsOf(tr))
  }

  /** The accumulator's records copied out. `absorbed` are the pattern spans the compile set aside. */
  function CopiedOut(outer: Node, rec: Records, src: bytes, absorbed: seq<Range>): RawMatch {
    RawMatch(map[OUTER := NodeToCapture(outer, src)] + (rec.byName - {IMPLICIT}),
             rec.aligns, absorbed + rec.dropped, CommentsWithin(rec.comments, outer.start, outer.end))
  }

  /** The result of one successful try without a where-tree, read off its derivation. */
  function ResultOf(pt: PatternTree, n: Node, src: bytes, absorbed: seq<Range>, d: Deriv): RawMatch
    requires NodeHolds(pt, pt.root, n, src, d)
  {
    CopiedOut(n, RecordsOf(pt, n, src, d), src, absorbed)
  }

  /** What the where-tree starts from: the match's bindings and the implicit one. */
  function Own(pt: PatternTree, n: Node, src: bytes, d: Deriv): map<bytes, Capture>
    requires NodeHolds(pt, pt.root, n, src, d)
  {
    RecordsOf(pt, n, src, d).byName[IMPLICIT := NodeToCapture(n, src)]
  }

  /** The where-tree shares the accumulator with the matcher, so what its leaves bind ends up among the
      captures: under the handle, under every key exported below it, and in place of the matched node when
      a handle is called "match". */
  ghost function FilteredOf(pt: PatternTree, n: Node, src: bytes, absorbed: seq<Range>, d: Deriv, log: seq<Binding>)
    : RawMatch
    requires NodeHolds(pt, pt.root, n, src, d)
  {
    CopiedOut(n, RecordsOf(pt, n, src, d).(byName := Replay(Own(pt, n, src, d), log)), src, absorbed)
  }

  method ToRawMatch(outer: Node, caps: Captures, src: bytes, absorbed: seq<Range>) returns (m: RawMatch)
    ensures m == CopiedOut(outer, caps.Snap(), src, absorbed)
  {
    var comments := caps.CopyComments(outer.start, outer.end);
    var captures := map[OUTER := NodeToCapture(outer, src)] + (caps.byName - {IMPLICIT});
    m := RawMatch(captures, caps.aligns, absorbed + caps.dropped, comments);
  }

  /** The tree holds exactly the placeholders of the text it was compiled from. */
  ghost predicate CompiledFrom(pt: PatternTree, pattern: bytes) {
    forall x :: x in AllNames(pt, pt.root) <==> x in WhereTree.NamesOf(pattern)
  }

  /** What one try returns: nothing when nothing is derivable, the greedy derivation's result when there is
      no where-tree, and with one what the evaluation `run` and its bindings `log` make of it. */
  ghost predicate Tried(pt: PatternTree, n: Node, src: bytes, absorbed: seq<Range>, where: Option<WhereTree.WhereNode>,
          r: Result<Option<RawMatch>, Fault>, log: seq<Binding>, run: Option<Run>) {
    if !Derivable(pt, pt.root, n, src) then r == Ok(None)
    else
      && FindNode(pt, pt.root, n, src).Some?
      && var d := FindNode(pt, pt.root, n, src).value;
      && NodeHolds(pt, pt.root, n, src, d) && NodeGreedy(pt, pt.root, n, src, d)
      && match where
         case None => r == Ok(Some(ResultOf(pt, n, src, absorbed, d)))
         case Some(w) =>
           && run.Some? && Means(w, run.value) && Declared(log, WhereTree.Exports(w))
           && r == Filtered(run.value.result, FilteredOf(pt, n, src, absorbed, d, log))
  }

  function Filtered(verdict: Verdict, m: RawMatch): Result<Option<RawMatch>, Fault> {
    match verdict
    case Err(e) => Err(e)
    case Ok(held) => Ok(if held then Some(m) else None)
  }

  /** Matches one candidate node from a cleared accumulator. */
  method MatchCleared(pt: PatternTree, n: Node, src: bytes, caps: Captures) returns (ok: bool, ghost d: Deriv)
    modifies caps
    ensures ok == Derivable(pt, pt.root, n, src)
    ensures ok ==> FindNode(pt, pt.root, n, src) == Some(d) && NodeHolds(pt, pt.root, n, src, d)
                   && NodeGreedy(pt, pt.root, n, src, d)
    ensures ok && Clear(pt, pt.root) ==> caps.Snap() == RecordsOf(pt, n, src, d)
  {
    hide FindNode, NodeHolds, NodeTrace, NodeDropped, NodeGreedy, AlignsOf, CommentsOf, Rebind, Clear, AllNames,
         Abandoned, Derivable;
    caps.Reset();
    ok := MatchTree(pt, n, src, caps);
    d := if ok then FindNode(pt, pt.root, n, src).value else Leaf;
    if ok {
      var tr := NodeTrace(pt, pt.root, n, src, d);
      assert [] + AlignsOf(tr) == AlignsOf(tr) && [] + CommentsOf(tr) == CommentsOf(tr);
    }
  }

  /** Runs the where-tree on the match just made; it binds into the accumulator itself. */
  method FilterHere(pt: PatternTree, n: Node, src: bytes, caps: Captures, w: WhereTree.WhereNode, pattern: bytes,
          language: bytes, ghost d: Deriv)
    returns (r: Verdict, ghost log: seq<Binding>, ghost run: Run)
    requires Clear(pt, pt.root) && NodeHolds(pt, pt.root, n, src, d) && caps.Snap() == RecordsOf(pt, n, src, d)
    requires CompiledFrom(pt, pattern) && WhereTree.Accepted(w, WhereTree.Base(pattern), [])
    modifies caps
    ensures caps.Snap() == RecordsOf(pt, n, src, d).(byName := Replay(Own(pt, n, src, d), log))
    ensures Means(w, run) && run.result == r && Declared(log, WhereTree.Exports(w))
  {
    OwnKeys(pt, n, src, d, pattern);
    hide NodeHolds, Clear, Replay, Declared, Means, CompiledFrom, NodeToCapture, WhereTree.Accepted, WhereTree.Base,
         WhereTree.Exports, Rebind, NodeTrace, NodeDropped, AlignsOf, CommentsOf;
    var own := caps.byName[IMPLICIT := NodeToCapture(n, src)];
    var after;
    ghost var at;
    r, after, log, at, run := FilterMatch(w, pattern, language, own);
    caps.byName := after;
  }

  lemma OwnKeys(pt: PatternTree, n: Node, src: bytes, d: Deriv, pattern: bytes)
    requires Clear(pt, pt.root) && NodeHolds(pt, pt.root, n, src, d) && CompiledFrom(pt, pattern)
    ensures Own(pt, n, src, d).Keys == WhereTree.Base(pattern)
  {
    hide NodeHolds, NodeTrace, Clear, AllNames, Rebind, NamesOf, LastBinding, WhereTree.NamesOf;
    var tr := NodeTrace(pt, pt.root, n, src, d);
    NodeNames(pt, pt.root, n, src, d);
    forall x: bytes ensures x in Rebind(map[], tr) <==> x in WhereTree.NamesOf(pattern) {
      RebindIsLastBinding(map[], tr, x);
    }
  }

  /** Tries one candidate node, reusing the accumulator of earlier candidates. */
  method TryMatch(pt: PatternTree, n: Node, src: bytes, absorbed: seq<Range>, caps: Captures,
          where: Option<WhereTree.WhereNode>, pattern: bytes, language: bytes)
    returns (r: Result<Option<RawMatch>, Fault>, ghost log: seq<Binding>, ghost run: Option<Run>)
    requires where.Some? ==>
               Clear(pt, pt.root) && CompiledFrom(pt, pattern) && WhereTree.Accepted(where.value, WhereTree.Base(pattern), [])
    modifies caps
    ensures where.None? ==> r.Ok? && (r.value.Some? <==> Derivable(pt, pt.root, n, src))
    ensures Clear(pt, pt.root) ==> Tried(pt, n, src, absorbed, where, r, log, run)
  {
    hide NodeHolds, NodeGreedy, Clear, CompiledFrom, Derivable, FindNode, RecordsOf, CopiedOut, Own, Replay, Declared,
         Means, WhereTree.Accepted, WhereTree.Base, WhereTree.Exports;
    log, run := [], None;
    var ok;
    ghost var d;
    ok, d := MatchCleared(pt, n, src, caps);
    if !ok {
      return Ok(None), log, run;
    }
    if where.Some? {
      var verdict;
      ghost var meant;
      verdict, log, meant := FilterHere(pt, n, src, caps, where.value, pattern, language, d);
      run := Some(meant);
      if verdict.Err? {
        return Err(verdict.error), log, run;
      }
      if !verdict.value {
        return Ok(None), log, run;
      }
    }
    var m := ToRawMatch(n, caps, src, absorbed);
    r := Ok(Some(m));
  }

  /** What a filtered result carries beside the unfiltered one: nothing when no leaf of the tree's own level
      declares a handle; otherwise every name the leaves did not write stands for what it stood for, and the
      records of the splice are untouched. */
  lemma FilteredBindings(pt: PatternTree, n: Node, src: bytes, absorbed: seq<Range>, d: Deriv, log: seq<Binding>,
          w: WhereTree.WhereNode, pattern: bytes)
    requires Clear(pt, pt.root) && NodeHolds(pt, pt.root, n, src, d) && CompiledFrom(pt, pattern)
    requires Declared(log, WhereTree.Exports(w))
    ensures var m, f := ResultOf(pt, n, src, absorbed, d), FilteredOf(pt, n, src, absorbed, d, log);
            && (NoHandleHere(w) ==> f == m)
            && f == m.(captures := f.captures)
            && (forall x | x !in KeysWritten(log) :: SameAt(m.captures, f.captures, x))
  {
    OwnKeys(pt, n, src, d, pattern);
    BaseIsDotless(pattern);
    WrittenIsDeclared(log, WhereTree.Exports(w));
    ExportsNothingIff(w);
    ReplayNothing(Own(pt, n, src, d));
    var rec := RecordsOf(pt, n, src, d);
    hide *;
    FilteredIsCopied(pt, n, src, absorbed, d, log);
    OwnIs(pt, n, src, d);
    if log == [] {
      CopiedWithout(n, rec, src, absorbed, Own(pt, n, src, d));
    }
    CopiedCaptures(n, rec, Own(pt, n, src, d), log, src, absorbed);
  }

  lemma OwnIs(pt: PatternTree, n: Node, src: bytes, d: Deriv)
    requires NodeHolds(pt, pt.root, n, src, d)
    ensures Own(pt, n, src, d) == RecordsOf(pt, n, src, d).byName[IMPLICIT := NodeToCapture(n, src)]
  {
    hide RecordsOf, NodeHolds, NodeToCapture;
  }

  lemma FilteredIsCopied(pt: PatternTree, n: Node, src: bytes, absorbed: seq<Range>, d: Deriv, log: seq<Binding>)
    requires NodeHolds(pt, pt.root, n, src, d)
    ensures ResultOf(pt, n, src, absorbed, d) == CopiedOut(n, RecordsOf(pt, n, src, d), src, absorbed)
    ensures FilteredOf(pt, n, src, absorbed, d, log)
         == CopiedOut(n, RecordsOf(pt, n, src, d).(byName := Replay(Own(pt, n, src, d), log)), src, absorbed)
  {
    hide NodeHolds, RecordsOf, CopiedOut, Own, Replay;
  }

  /** The implicit binding alone does not show in what is copied out. */
  lemma CopiedWithout(n: Node, rec: Records, src: bytes, absorbed: seq<Range>, own: map<bytes, Capture>)
    requires own == rec.byName[IMPLICIT := NodeToCapture(n, src)]
    ensures CopiedOut(n, rec.(byName := own), src, absorbed) == CopiedOut(n, rec, src, absorbed)
  {
    hide NodeToCapture, CommentsWithin;
    assert own - {IMPLICIT} == rec.byName - {IMPLICIT};
  }

  lemma CopiedCaptures(n: Node, rec: Records, own: map<bytes, Capture>, log: seq<Binding>, src: bytes,
          absorbed: seq<Range>)
    requires own == rec.byName[IMPLICIT := NodeToCapture(n, src)] && Dotless(own.Keys)
    ensures var m, f := CopiedOut(n, rec, src, absorbed), CopiedOut(n, rec.(byName := Replay(own, log)), src, absorbed);
            f == m.(captures := f.captures) && forall x | x !in KeysWritten(log) :: SameAt(m.captures, f.captures, x)
  {
    hide NodeToCapture, CommentsWithin, Replay, KeysWritten, Dotless;
    var m, f := CopiedOut(n, rec, src, absorbed), CopiedOut(n, rec.(byName := Replay(own, log)), src, absorbed);
    forall x | x !in KeysWritten(log) ensures SameAt(m.captures, f.captures, x) {
      UnwrittenKept(own, log, x);
    }
  }

  lemma ReplayNothing(m: map<bytes, Capture>)
    ensures Replay(m, []) == m
  {
  }

  /** Under the root every placeholder name is bound, to its last occurrence, and nothing else is. */
  lemma ResultBindings(pt: PatternTree, n: Node, src: bytes, absorbed: seq<Range>, d: Deriv)
    requires Clear(pt, pt.root) && NodeHolds(pt, pt.root, n, src, d)
    requires IMPLICIT !in AllNames(pt, pt.root)
    ensures var m, tr := ResultOf(pt, n, src, absorbed, d), NodeTrace(pt, pt.root, n, src, d);
            && (forall x :: x in m.captures <==> x == OUTER || x in AllNames(pt, pt.root))
            && (forall x | x in AllNames(pt, pt.root) ::
                  LastBinding(tr, x).Some? && m.captures[x] == LastBinding(tr, x).value)
            && (OUTER !in AllNames(pt, pt.root) ==> m.captures[OUTER] == NodeToCapture(n, src))
  {
    hide NodeHolds, NodeTrace, NodeDropped, AlignsOf, CommentsOf, Clear, AllNames, CommentsWithin, NodeToCapture,
         LastBinding, Rebind, NamesOf;
    var m, tr := ResultOf(pt, n, src, absorbed, d), NodeTrace(pt, pt.root, n, src, d);
    NodeNames(pt, pt.root, n, src, d);
    forall x: bytes
      ensures LastBinding(tr, x).Some? <==> x in NamesOf(tr)
      ensures var last := LastBinding(tr, x);
              if last.Some? then x in Rebind(map[], tr) && Rebind(map[], tr)[x] == last.value
              else SameAt(map[], Rebind(map[], tr), x)
    {
      RebindIsLastBinding(map[], tr, x);
    }
    assert forall x | x in AllNames(pt, pt.root) :: m.captures[x] == LastBinding(tr, x).value;
  }

  /** The alignment, the comments and the dropped spans of a result, on well-formed trees. */
  lemma ResultInOrder(pt: PatternTree, n: Node, src: bytes, absorbed: seq<Range>, d: Deriv)
    requires NodeHolds(pt, pt.root, n, src, d)
    requires WellFormed(pt.root) && WellFormed(n) && n.end <= |src|
    ensures var m := ResultOf(pt, n, src, absorbed, d);
            && InOrder(AlignPat(m.alignment), pt.root.start, pt.root.end)
            && InOrder(AlignSrc(m.alignment), n.start, n.end)
            && InOrder(m.comments, n.start, n.end)
            && m.comments == CommentsOf(NodeTrace(pt, pt.root, n, src, d))
            && (forall a | a in m.alignment :: TextAgrees(pt, pt.root, n, src, a))
            && (forall a, r | a in m.alignment && r in NodeDropped(pt, pt.root, n, src, d) ::
                  a.patEnd <= r.start || r.end <= a.patStart)
  {
    hide NodeHolds, NodeTrace, NodeDropped, InOrder, WellFormed, Siblings, TextAgrees;
    var tr := NodeTrace(pt, pt.root, n, src, d);
    NodeOrdered(pt, pt.root, n, src, d);
    AlignPatInOrder(tr, pt.root.start, pt.root.end);
    AlignSrcInOrder(tr, n.start, n.end);
    CommentsInOrder(tr, n.start, n.end);
    AllWithin(CommentsOf(tr), n.start, n.end);
    NodeAgrees(pt, pt.root, n, pt.root, n, src, d);
    NodeKept(pt, pt.root, n, src, d);
    AlignsAreEvents(tr);
  }

  lemma AllWithin(cs: seq<Range>, lo: nat, hi: nat)
    requires InOrder(cs, lo, hi)
    ensures CommentsWithin(cs, lo, hi) == cs
    decreases |cs|
  {
    if cs != [] {
      WithinFrom(cs[1..], cs[0].end, hi, lo);
    }
  }

  lemma {:induction false} WithinFrom(cs: seq<Range>, at: nat, hi: nat, lo: nat)
    requires InOrder(cs, at, hi) && lo <= at
    ensures CommentsWithin(cs, lo, hi) == cs
    decreases |cs|
  {
    if cs != [] {
      WithinFrom(cs[1..], cs[0].end, hi, lo);
      InOrderAt(cs, at, hi, 0);
    }
  }

  lemma {:induction false} AlignsAreEvents(tr: seq<Event>)
    ensures forall a | a in AlignsOf(tr) :: Aligned(a) in tr
  {
    if tr != [] {
      AlignsAreEvents(tr[1..]);
    }
  }
}
