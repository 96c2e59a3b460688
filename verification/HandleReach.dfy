/**
 Which handles an evaluation may bind, read off the where-tree alone: for every node, the results it may
 come to together with whether a given handle is bound on the way.
 */
module HandleReach {
  import opened Bytes
  import opened Outcomes
  import opened MatchRecords
  import opened WhereTree
  import opened WhereEval

  /** A result without error, and whether the handle was bound. */
  datatype Out = Out(held: bool, bound: bool)

  predicate BindsIn(log: seq<Binding>, handle: bytes) {
    exists b | b in log :: b.handle == handle
  }

  /** What stops here, and what goes on to the next stage. */
  function Onward(first: set<Out>, go: bool, next: set<Out>): set<Out> {
    (set o | o in first && o.held != go)
    + (set o, p | o in first && o.held == go && p in next :: Out(p.held, o.bound || p.bound))
  }

  function Outs(w: WhereNode, handle: bytes): set<Out>
    decreases w, 1
  {
    var negated := if w.negated.Some? then Flipped(Outs(w.negated.value, handle)) else {Out(true, false)};
    var any := if w.any == [] then {Out(true, false)} else TurnOuts(w.any, false, handle);
    Onward(TurnOuts(w.all, true, handle), true, Onward(any, true, Onward(negated, true, FlagOuts(LeafFlags(w, handle)))))
  }

  function TurnOuts(ws: seq<WhereNode>, go: bool, handle: bytes): set<Out>
    decreases ws, 0
  {
    if ws == [] then {Out(go, false)} else Onward(Outs(ws[0], handle), go, TurnOuts(ws[1..], go, handle))
  }

  function Flipped(outs: set<Out>): set<Out> {
    set o | o in outs :: Out(!o.held, o.bound)
  }

  /** The node's own leaves in order, each with whether it binds the handle when it holds. */
  function LeafFlags(w: WhereNode, handle: bytes): seq<bool> {
    seq(LocalCount(w), _ => false) + SubFlag(w.inside, handle) + SubFlag(w.contains, handle) + seq(One(w.flows), _ => false)
  }

  function SubFlag(o: Option<SubPattern>, handle: bytes): seq<bool> {
    if o.Some? then [o.value.handle == handle] else []
  }

  /** Each leaf fails, or holds and lets the next one be evaluated. */
  function FlagOuts(flags: seq<bool>): set<Out> {
    if flags == [] then {Out(true, false)}
    else {Out(false, false)} + set p | p in FlagOuts(flags[1..]) :: Out(p.held, flags[0] || p.bound)
  }

  predicate Raised(flags: seq<bool>, k: nat) {
    exists j | 0 <= j < k && j < |flags| :: flags[j]
  }

  /** All leaves hold, or the `k`-th is the first to fail. */
  predicate FlagOut(flags: seq<bool>, o: Out, k: nat) {
    && k <= |flags| && (o.held <==> k == |flags|) && (o.bound <==> Raised(flags, k))
  }

  lemma {:induction false} FlagOutsSound(flags: seq<bool>, o: Out, k: nat)
    requires FlagOut(flags, o, k)
    ensures o in FlagOuts(flags)
  {
    if flags != [] && k > 0 {
      var p := Out(o.held, Raised(flags[1..], k - 1));
      FlagOutsSound(flags[1..], p, k - 1);
      RaisedStep(flags, k);
      assert o == Out(p.held, flags[0] || p.bound);
    }
  }

  lemma RaisedStep(flags: seq<bool>, k: nat)
    requires 0 < k <= |flags|
    ensures Raised(flags, k) <==> flags[0] || Raised(flags[1..], k - 1)
  {
    if j :| 0 <= j < k && j < |flags| && flags[j] {
      assert j > 0 ==> flags[1..][j - 1];
    }
    if j :| 0 <= j < k - 1 && j < |flags[1..]| && flags[1..][j] {
      assert flags[j + 1];
    }
  }

  lemma {:induction false} FlagOutsComplete(flags: seq<bool>, o: Out) returns (k: nat)
    requires o in FlagOuts(flags)
    ensures FlagOut(flags, o, k)
  {
    if flags == [] || o == Out(false, false) {
      k := 0;
    } else {
      var p :| p in FlagOuts(flags[1..]) && o == Out(p.held, flags[0] || p.bound);
      k := FlagOutsComplete(flags[1..], p);
      k := k + 1;
      RaisedStep(flags, k);
    }
  }

  // ----- the node's own leaves -----

  /** The leaf's handle was bound: it was evaluated and held. */
  predicate Held(leaves: seq<Verdict>, i: nat) {
    i < |leaves| && leaves[i] == Ok(true)
  }

  lemma HandlesBind(binds: seq<Binding>, handle: bytes)
    ensures BindsIn(binds, handle) <==> handle in HandlesOf(binds)
  {
    if BindsIn(binds, handle) {
      var b :| b in binds && b.handle == handle;
      var i :| 0 <= i < |binds| && binds[i] == b;
      assert HandlesOf(binds)[i] == handle;
    }
  }

  lemma OwnBindsIff(w: WhereNode, leaves: seq<Verdict>, binds: seq<Binding>, handle: bytes)
    requires OwnBinds(w, leaves, binds) && handle != []
    ensures var n := LocalCount(w);
            BindsIn(binds, handle) <==>
              || (w.inside.Some? && w.inside.value.handle == handle && Held(leaves, n))
              || (w.contains.Some? && w.contains.value.handle == handle && Held(leaves, n + One(w.inside)))
  {
    HandlesBind(binds, handle);
    hide LocalCount;
    var n := LocalCount(w);
    if |leaves| >= n {
      var walk := leaves[n..];
      assert forall i | 0 <= i < |walk| :: walk[i] == leaves[n + i];
    }
  }

  /** The leaf at `j` is a sub-pattern with the handle. */
  predicate SubAt(w: WhereNode, handle: bytes, j: nat) {
    var n := LocalCount(w);
    || (w.inside.Some? && w.inside.value.handle == handle && j == n)
    || (w.contains.Some? && w.contains.value.handle == handle && j == n + One(w.inside))
  }

  lemma FlagIs(w: WhereNode, handle: bytes)
    ensures |LeafFlags(w, handle)| == LeafCount(w)
    ensures forall j | 0 <= j < LeafCount(w) :: LeafFlags(w, handle)[j] <==> SubAt(w, handle, j)
  {
    hide LocalCount;
  }

  lemma FlagsAt(w: WhereNode, handle: bytes, k: nat)
    requires k <= LeafCount(w)
    ensures var n := LocalCount(w);
            && |LeafFlags(w, handle)| == LeafCount(w)
            && (Raised(LeafFlags(w, handle), k) <==>
                  || (w.inside.Some? && w.inside.value.handle == handle && n < k)
                  || (w.contains.Some? && w.contains.value.handle == handle && n + One(w.inside) < k))
  {
    FlagIs(w, handle);
    hide LocalCount, LeafFlags;
    var n := LocalCount(w);
    if w.inside.Some? && w.inside.value.handle == handle && n < k {
      assert SubAt(w, handle, n);
    }
    if w.contains.Some? && w.contains.value.handle == handle && n + One(w.inside) < k {
      assert SubAt(w, handle, n + One(w.inside));
    }
  }

  lemma LeavesSound(w: WhereNode, leaves: seq<Verdict>, binds: seq<Binding>, handle: bytes)
    requires InTurn(leaves, LeafCount(w), Ok(true)) && OwnBinds(w, leaves, binds) && handle != []
    requires LastOf(leaves, Ok(true)).Ok?
    ensures Out(LastOf(leaves, Ok(true)).value, BindsIn(binds, handle)) in FlagOuts(LeafFlags(w, handle))
  {
    var r := LastOf(leaves, Ok(true));
    var k := if r == Ok(true) then |leaves| else |leaves| - 1;
    OwnBindsIff(w, leaves, binds, handle);
    FlagsAt(w, handle, k);
    hide LocalCount, LeafCount, LeafFlags, OwnBinds, BindsIn, Raised;
    HeldBelow(leaves, k);
    FlagOutsSound(LeafFlags(w, handle), Out(r.value, BindsIn(binds, handle)), k);
  }

  /** The bindings the held leaves make, all at one node. */
  function BindsAt(o: Option<SubPattern>, leaves: seq<Verdict>, i: nat, c: Capture): seq<Binding> {
    if o.Some? && Held(leaves, i) && o.value.handle != [] then [Binding(o.value.handle, c, map[])] else []
  }

  lemma LeavesComplete(w: WhereNode, o: Out, handle: bytes, c: Capture)
    returns (leaves: seq<Verdict>, binds: seq<Binding>)
    requires o in FlagOuts(LeafFlags(w, handle)) && handle != []
    ensures InTurn(leaves, LeafCount(w), Ok(true)) && OwnBinds(w, leaves, binds)
    ensures LastOf(leaves, Ok(true)) == Ok(o.held) && BindsIn(binds, handle) == o.bound
    ensures forall b | b in binds :: b.self == c
  {
    var k := FlagOutsComplete(LeafFlags(w, handle), o);
    var n := LocalCount(w);
    leaves := LeavesUpTo(k, o.held);
    UpToInTurn(LeafCount(w), k, o.held);
    binds := BindsAt(w.inside, leaves, n, c) + BindsAt(w.contains, leaves, n + One(w.inside), c);
    FlagsAt(w, handle, 0);
    FlagsAt(w, handle, k);
    OwnBindsBuilt(w, leaves, c);
    OwnBindsIff(w, leaves, binds, handle);
    hide LocalCount, LeafCount, LeafFlags, OwnBinds, BindsIn, Raised, LeavesUpTo, InTurn, LastOf;
    HeldBelow(leaves, k);
  }

  /** The first `k` leaves hold, and the next one fails if the node does. */
  function LeavesUpTo(k: nat, held: bool): seq<Verdict> {
    seq(k, _ => Ok(true)) + if held then [] else [Ok(false)]
  }

  lemma UpToInTurn(n: nat, k: nat, held: bool)
    requires k <= n && (held <==> k == n)
    ensures var leaves := LeavesUpTo(k, held);
            && InTurn(leaves, n, Ok(true)) && LastOf(leaves, Ok(true)) == Ok(held)
            && k <= |leaves| <= k + 1 && (forall i | 0 <= i < k :: leaves[i] == Ok(true))
            && (k < |leaves| ==> leaves[k] != Ok(true))
  {
  }

  lemma HeldBelow(leaves: seq<Verdict>, k: nat)
    requires k <= |leaves| <= k + 1 && (forall i | 0 <= i < k :: leaves[i] == Ok(true))
    requires k < |leaves| ==> leaves[k] != Ok(true)
    ensures forall i: nat :: Held(leaves, i) <==> i < k
  {
  }

  lemma OwnBindsBuilt(w: WhereNode, leaves: seq<Verdict>, c: Capture)
    ensures var n := LocalCount(w);
            OwnBinds(w, leaves, BindsAt(w.inside, leaves, n, c) + BindsAt(w.contains, leaves, n + One(w.inside), c))
  {
    hide LocalCount;
    var n := LocalCount(w);
    if |leaves| >= n {
      var walk := leaves[n..];
      assert forall i | 0 <= i < |walk| :: walk[i] == leaves[n + i];
      var a, b := BindsAt(w.inside, leaves, n, c), BindsAt(w.contains, leaves, n + One(w.inside), c);
      assert HandlesOf(a) == HeldHandle(w.inside, walk, 0);
      assert HandlesOf(b) == HeldHandle(w.contains, walk, One(w.inside));
      assert HandlesOf(a + b) == HandlesOf(a) + HandlesOf(b);
    }
  }

  // ----- the tree -----

  lemma OnwardStops(first: set<Out>, go: bool, next: set<Out>, o: Out)
    requires o in first && o.held != go
    ensures o in Onward(first, go, next)
  {
  }

  lemma OnwardGoes(first: set<Out>, go: bool, next: set<Out>, o: Out, p: Out)
    requires o in first && o.held == go && p in next
    ensures Out(p.held, o.bound || p.bound) in Onward(first, go, next)
  {
  }

  lemma OnwardParts(first: set<Out>, go: bool, next: set<Out>, o: Out) returns (a: Out, b: Option<Out>)
    requires o in Onward(first, go, next)
    ensures a in first && (b.None? <==> a.held != go)
    ensures b.Some? ==> b.value in next && o == Out(b.value.held, a.bound || b.value.bound)
    ensures b.None? ==> o == a
  {
    if o in first && o.held != go {
      a, b := o, None;
    } else {
      var x, y :| x in first && x.held == go && y in next && o == Out(y.held, x.bound || y.bound);
      a, b := x, Some(y);
    }
  }

  lemma BindsInAppend(a: seq<Binding>, b: seq<Binding>, handle: bytes)
    ensures BindsIn(a + b, handle) <==> BindsIn(a, handle) || BindsIn(b, handle)
  {
    if BindsIn(a, handle) {
      var x :| x in a && x.handle == handle;
      assert x in a + b;
    }
    if BindsIn(b, handle) {
      var x :| x in b && x.handle == handle;
      assert x in a + b;
    }
  }

  lemma {:induction false} LogAllHead(run: Run, runs: seq<Run>)
    ensures LogAll([run] + runs) == Log(run) + LogAll(runs)
    decreases |runs|
  {
    hide Log;
    var all := [run] + runs;
    if runs == [] {
      assert all[..0] == [] && all[0] == run;
      assert LogAll(all) == LogAll(all[..0]) + Log(run);
    } else {
      var n := |runs| - 1;
      assert all[..n + 1] == [run] + runs[..n] && all[n + 1] == runs[n];
      LogAllHead(run, runs[..n]);
      assert Log(run) + (LogAll(runs[..n]) + Log(runs[n])) == Log(run) + LogAll(runs[..n]) + Log(runs[n]);
    }
  }

  /** The negated child or the node's own leaves bind the handle. */
  predicate BindsBehindAny(run: Run, handle: bytes) {
    (run.negated.Some? && BindsIn(Log(run.negated.value), handle)) || BindsIn(run.binds, handle)
  }

  /** What the stages of a node bind, together. */
  lemma StagesBind(run: Run, handle: bytes)
    ensures BindsIn(Log(run), handle) <==>
              || BindsIn(LogAll(run.all), handle) || BindsIn(LogAll(run.any), handle) || BindsBehindAny(run, handle)
  {
    hide BindsIn, LogAll;
    var negated := if run.negated.Some? then Log(run.negated.value) else [];
    NothingBinds(handle);
    BindsInAppend(LogAll(run.all), LogAll(run.any), handle);
    BindsInAppend(LogAll(run.all) + LogAll(run.any), negated, handle);
    BindsInAppend(LogAll(run.all) + LogAll(run.any) + negated, run.binds, handle);
  }

  lemma NothingBinds(handle: bytes)
    ensures !BindsIn([], handle) && !BindsIn(LogAll([]), handle)
  {
  }

  /** The stages of a node behind its `all` children. */
  function AnyStage(w: WhereNode, handle: bytes): set<Out> {
    if w.any == [] then {Out(true, false)} else TurnOuts(w.any, false, handle)
  }

  function NotStage(w: WhereNode, handle: bytes): set<Out> {
    if w.negated.Some? then Flipped(Outs(w.negated.value, handle)) else {Out(true, false)}
  }

  function BehindAny(w: WhereNode, handle: bytes): set<Out> {
    Onward(NotStage(w, handle), true, FlagOuts(LeafFlags(w, handle)))
  }

  function BehindAll(w: WhereNode, handle: bytes): set<Out> {
    Onward(AnyStage(w, handle), true, BehindAny(w, handle))
  }

  lemma OutsIs(w: WhereNode, handle: bytes)
    ensures Outs(w, handle) == Onward(TurnOuts(w.all, true, handle), true, BehindAll(w, handle))
  {
    hide Onward, TurnOuts, FlagOuts, LeafFlags, Flipped;
  }

  /** Whatever an evaluation comes to, and whether it binds the handle, is foreseen. */
  lemma {:induction false} OutsSound(w: WhereNode, run: Run, handle: bytes)
    requires Means(w, run) && run.result.Ok? && handle != []
    ensures Out(run.result.value, BindsIn(Log(run), handle)) in Outs(w, handle)
    decreases w, 2
  {
    MeansParts(w, run);
    StagesBind(run, handle);
    NothingBinds(handle);
    OutsIs(w, handle);
    hide Outs, Onward, TurnOuts, AnyStage, NotStage, FlagOuts, LeafFlags, Means, AllMean, InTurn, LastOf, ResultsOf, Log, LogAll,
         BindsIn, OwnBinds, LeafCount;
    var all := LastOf(ResultsOf(run.all), Ok(true));
    TurnSound(w.all, run.all, true, handle);
    var a := Out(all.value, BindsIn(LogAll(run.all), handle));
    if all != Ok(true) {
      OnwardStops(TurnOuts(w.all, true, handle), true, BehindAll(w, handle), a);
    } else {
      var b := RestSound(w, run, handle);
      OnwardGoes(TurnOuts(w.all, true, handle), true, BehindAll(w, handle), a, b);
    }
  }

  /** The stages behind the `all` children, when they were reached. */
  lemma {:induction false} RestSound(w: WhereNode, run: Run, handle: bytes) returns (b: Out)
    requires Means(w, run) && run.result.Ok? && handle != [] && LastOf(ResultsOf(run.all), Ok(true)) == Ok(true)
    ensures b in BehindAll(w, handle) && b.held == run.result.value
    ensures b.bound <==> BindsIn(LogAll(run.any), handle) || BindsBehindAny(run, handle)
    decreases w, 1
  {
    MeansParts(w, run);
    NothingBinds(handle);
    b := AnySound(w, run, handle);
    hide Outs, Onward, TurnOuts, AnyStage, NotStage, FlagOuts, LeafFlags, Means, AllMean, InTurn, ResultsOf, Log, LogAll,
         BindsIn, OwnBinds, LeafCount;
    if !b.held {
      OnwardStops(AnyStage(w, handle), true, BehindAny(w, handle), b);
    } else {
      var d := LateSound(w, run, handle);
      OnwardGoes(AnyStage(w, handle), true, BehindAny(w, handle), b, d);
      b := Out(d.held, b.bound || d.bound);
    }
  }

  lemma MeansParts(w: WhereNode, run: Run)
    requires Means(w, run)
    ensures Composes(w, run) && AllMean(w.all, run.all) && AllMean(w.any, run.any)
    ensures w.negated.Some? && run.negated.Some? ==> Means(w.negated.value, run.negated.value)
  {
    hide Composes;
  }

  /** The `any` stage, when it was reached. */
  lemma {:induction false} AnySound(w: WhereNode, run: Run, handle: bytes) returns (b: Out)
    requires Means(w, run) && run.result.Ok? && handle != [] && LastOf(ResultsOf(run.all), Ok(true)) == Ok(true)
    ensures b in AnyStage(w, handle) && b.bound == BindsIn(LogAll(run.any), handle)
    ensures b.held <==> w.any == [] || LastOf(ResultsOf(run.any), Ok(false)) == Ok(true)
    decreases w, 0
  {
    MeansParts(w, run);
    NothingBinds(handle);
    hide Outs, TurnOuts, Means, AllMean, ResultsOf, LogAll, BindsIn, OwnBinds, LeafCount;
    if w.any == [] {
      NoneInTurn(run.any);
      b := Out(true, false);
    } else {
      TurnSound(w.any, run.any, false, handle);
      b := Out(LastOf(ResultsOf(run.any), Ok(false)).value, BindsIn(LogAll(run.any), handle));
    }
  }

  lemma NoneInTurn(runs: seq<Run>)
    requires InTurn(ResultsOf(runs), 0, Ok(false))
    ensures runs == []
  {
  }

  /** The negated child and the leaves, when they were reached. */
  lemma {:induction false} LateSound(w: WhereNode, run: Run, handle: bytes) returns (d: Out)
    requires Means(w, run) && run.result.Ok? && handle != [] && LastOf(ResultsOf(run.all), Ok(true)) == Ok(true)
    requires w.any == [] || LastOf(ResultsOf(run.any), Ok(false)) == Ok(true)
    ensures d in BehindAny(w, handle) && d.held == run.result.value && (d.bound <==> BindsBehindAny(run, handle))
    decreases w, 0
  {
    MeansParts(w, run);
    NothingBinds(handle);
    hide Outs, TurnOuts, Means, AllMean, InTurn, LastOf, ResultsOf, LogAll, Log, BindsIn, OwnBinds, LeafCount, Onward, FlagOuts,
         LeafFlags;
    var leaf := FlagOuts(LeafFlags(w, handle));
    var n := Out(true, false);
    if w.negated.Some? {
      OutsSound(w.negated.value, run.negated.value, handle);
      n := Out(!run.negated.value.result.value, BindsIn(Log(run.negated.value), handle));
    }
    if n.held {
      LeavesSound(w, run.leaves, run.binds, handle);
      var l := Out(run.result.value, BindsIn(run.binds, handle));
      OnwardGoes(NotStage(w, handle), true, leaf, n, l);
      d := Out(l.held, n.bound || l.bound);
    } else {
      OnwardStops(NotStage(w, handle), true, leaf, n);
      d := n;
    }
  }

  lemma {:induction false} TurnSound(ws: seq<WhereNode>, runs: seq<Run>, go: bool, handle: bytes)
    requires AllMean(ws, runs) && InTurn(ResultsOf(runs), |ws|, Ok(go)) && LastOf(ResultsOf(runs), Ok(go)).Ok? && handle != []
    ensures Out(LastOf(ResultsOf(runs), Ok(go)).value, BindsIn(LogAll(runs), handle)) in TurnOuts(ws, go, handle)
    decreases ws, 0
  {
    hide Outs, Onward, Means, Log, LogAll, BindsIn;
    NothingBinds(handle);
    if ws == [] {
      assert runs == [];
    } else {
      var rest := runs[1..];
      assert runs == [runs[0]] + rest && ResultsOf(runs)[0] == runs[0].result;
      assert ResultsOf(runs)[1..] == ResultsOf(rest);
      assert AllMean(ws[1..], rest) by {
        forall i | 0 <= i < |ws[1..]| && i < |rest| ensures Means(ws[1..][i], rest[i]) {
          assert ws[1..][i] == ws[i + 1] && rest[i] == runs[i + 1];
        }
      }
      LogAllHead(runs[0], rest);
      BindsInAppend(Log(runs[0]), LogAll(rest), handle);
      OutsSound(ws[0], runs[0], handle);
      var o := Out(runs[0].result.value, BindsIn(Log(runs[0]), handle));
      if o.held != go {
        assert rest == [];
        OnwardStops(Outs(ws[0], handle), go, TurnOuts(ws[1..], go, handle), o);
      } else {
        TurnSound(ws[1..], rest, go, handle);
        OnwardGoes(Outs(ws[0], handle), go, TurnOuts(ws[1..], go, handle), o,
                   Out(LastOf(ResultsOf(rest), Ok(go)).value, BindsIn(LogAll(rest), handle)));
      }
    }
  }

  // ----- every outcome foreseen is that of some evaluation -----

  predicate AllSelf(log: seq<Binding>, c: Capture) {
    forall b | b in log :: b.self == c
  }

  lemma NothingSelf(c: Capture)
    ensures AllSelf([], c) && AllSelf(LogAll([]), c)
  {
  }

  lemma StagesSelf(run: Run, c: Capture)
    requires AllSelf(LogAll(run.all), c) && AllSelf(LogAll(run.any), c) && AllSelf(run.binds, c)
    requires run.negated.Some? ==> AllSelf(Log(run.negated.value), c)
    ensures AllSelf(Log(run), c)
  {
    hide LogAll;
  }

  lemma MeansFrom(w: WhereNode, run: Run)
    requires Composes(w, run) && AllMean(w.all, run.all) && AllMean(w.any, run.any)
    requires w.negated.Some? && run.negated.Some? ==> Means(w.negated.value, run.negated.value)
    ensures Means(w, run)
  {
    hide Composes;
  }

  /** Some evaluation comes to every outcome foreseen, whatever node its handles are bound to. */
  lemma {:induction false} OutsComplete(w: WhereNode, o: Out, handle: bytes, c: Capture) returns (run: Run)
    requires o in Outs(w, handle) && handle != []
    ensures Means(w, run) && run.result == Ok(o.held)
    ensures (BindsIn(Log(run), handle) <==> o.bound) && AllSelf(Log(run), c)
    decreases w, 2
  {
    OutsIs(w, handle);
    hide Outs, Onward, TurnOuts, BehindAll, Means, AllMean, Composes, Log, LogAll, BindsIn, AllSelf, InTurn, LastOf, ResultsOf;
    var a, b := OnwardParts(TurnOuts(w.all, true, handle), true, BehindAll(w, handle), o);
    var all := TurnComplete(w.all, a, true, handle, c);
    if b.None? {
      run := Run(all, [], None, [], [], Ok(false));
      AllStops(w, all);
      StagesBind(run, handle);
      NothingBinds(handle);
      NothingSelf(c);
      StagesSelf(run, c);
    } else {
      run := RestComplete(w, b.value, handle, c, all);
      assert o == Out(b.value.held, a.bound || b.value.bound);
    }
  }

  lemma AllStops(w: WhereNode, all: seq<Run>)
    requires AllMean(w.all, all) && InTurn(ResultsOf(all), |w.all|, Ok(true)) && LastOf(ResultsOf(all), Ok(true)) == Ok(false)
    ensures Means(w, Run(all, [], None, [], [], Ok(false)))
  {
    hide Means, InTurn, LastOf, ResultsOf;
    MeansFrom(w, Run(all, [], None, [], [], Ok(false)));
  }

  lemma AnyStops(w: WhereNode, all: seq<Run>, any: seq<Run>)
    requires AllMean(w.all, all) && InTurn(ResultsOf(all), |w.all|, Ok(true)) && LastOf(ResultsOf(all), Ok(true)) == Ok(true)
    requires AllMean(w.any, any) && InTurn(ResultsOf(any), |w.any|, Ok(false)) && LastOf(ResultsOf(any), Ok(false)) == Ok(false)
    requires w.any != []
    ensures Means(w, Run(all, any, None, [], [], Ok(false)))
  {
    hide Means, InTurn, LastOf, ResultsOf;
    MeansFrom(w, Run(all, any, None, [], [], Ok(false)));
  }

  /** What happens behind the `any` children. */
  ghost predicate Late(w: WhereNode, negated: Option<Run>, leaves: seq<Verdict>, binds: seq<Binding>, result: Verdict) {
    && (negated.Some? <==> w.negated.Some?) && (negated.Some? ==> Means(w.negated.value, negated.value))
    && if negated.Some? && negated.value.result != Ok(false) then
         leaves == [] && binds == [] && result == Refuted(negated.value.result)
       else
         InTurn(leaves, LeafCount(w), Ok(true)) && result == LastOf(leaves, Ok(true)) && OwnBinds(w, leaves, binds)
  }

  lemma ReachesLate(w: WhereNode, run: Run)
    requires AllMean(w.all, run.all) && InTurn(ResultsOf(run.all), |w.all|, Ok(true))
    requires LastOf(ResultsOf(run.all), Ok(true)) == Ok(true)
    requires AllMean(w.any, run.any) && InTurn(ResultsOf(run.any), |w.any|, Ok(false))
    requires w.any == [] || LastOf(ResultsOf(run.any), Ok(false)) == Ok(true)
    requires Late(w, run.negated, run.leaves, run.binds, run.result)
    ensures Means(w, run)
  {
    hide Means, InTurn, LastOf, ResultsOf, OwnBinds, LeafCount, AllMean;
    MeansFrom(w, run);
  }

  lemma {:induction false} RestComplete(w: WhereNode, o: Out, handle: bytes, c: Capture, all: seq<Run>) returns (run: Run)
    requires o in BehindAll(w, handle) && handle != []
    requires AllMean(w.all, all) && InTurn(ResultsOf(all), |w.all|, Ok(true)) && LastOf(ResultsOf(all), Ok(true)) == Ok(true)
    requires AllSelf(LogAll(all), c)
    ensures Means(w, run) && run.result == Ok(o.held)
    ensures (BindsIn(Log(run), handle) <==> BindsIn(LogAll(all), handle) || o.bound) && AllSelf(Log(run), c)
    decreases w, 1
  {
    var x, y := OnwardParts(AnyStage(w, handle), true, BehindAny(w, handle), o);
    var any := AnyComplete(w, x, handle, c);
    hide Outs, Onward, TurnOuts, AnyStage, BehindAny, Means, AllMean, Composes, Log, LogAll, BindsIn, AllSelf, InTurn, LastOf,
         ResultsOf, Late, BindsBehindAny;
    if y.None? {
      run := Run(all, any, None, [], [], Ok(false));
      AnyStops(w, all, any);
      NothingBinds(handle);
      NothingSelf(c);
      assert !BindsBehindAny(run, handle) by { NothingBehindAny(run, handle); }
    } else {
      var negated, leaves, binds := LateComplete(w, y.value, handle, c);
      run := Run(all, any, negated, leaves, binds, Ok(o.held));
      ReachesLate(w, run);
      assert BindsBehindAny(run, handle) <==> y.value.bound by { BehindAnyIs(run, handle); }
    }
    StagesBind(run, handle);
    StagesSelf(run, c);
  }

  lemma NothingBehindAny(run: Run, handle: bytes)
    requires run.negated.None? && run.binds == []
    ensures !BindsBehindAny(run, handle)
  {
  }

  lemma BehindAnyIs(run: Run, handle: bytes)
    ensures BindsBehindAny(run, handle)
       <==> (run.negated.Some? && BindsIn(Log(run.negated.value), handle)) || BindsIn(run.binds, handle)
  {
  }

  lemma {:induction false} AnyComplete(w: WhereNode, x: Out, handle: bytes, c: Capture) returns (any: seq<Run>)
    requires x in AnyStage(w, handle) && handle != []
    ensures AllMean(w.any, any) && InTurn(ResultsOf(any), |w.any|, Ok(false)) && AllSelf(LogAll(any), c)
    ensures BindsIn(LogAll(any), handle) <==> x.bound
    ensures if w.any == [] then x.held else LastOf(ResultsOf(any), Ok(false)) == Ok(x.held)
    decreases w, 0
  {
    hide Outs, TurnOuts, Means;
    NothingBinds(handle);
    if w.any == [] {
      any := [];
    } else {
      any := TurnComplete(w.any, x, false, handle, c);
    }
  }

  lemma {:induction false} LateComplete(w: WhereNode, d: Out, handle: bytes, c: Capture)
    returns (negated: Option<Run>, leaves: seq<Verdict>, binds: seq<Binding>)
    requires d in BehindAny(w, handle) && handle != []
    ensures Late(w, negated, leaves, binds, Ok(d.held))
    ensures (negated.Some? && BindsIn(Log(negated.value), handle)) || BindsIn(binds, handle) <==> d.bound
    ensures AllSelf(binds, c) && (negated.Some? ==> AllSelf(Log(negated.value), c))
    decreases w, 0
  {
    NothingBinds(handle);
    hide Outs, TurnOuts, Means, Log, LogAll, Onward, FlagOuts, LeafFlags, OwnBinds, LeafCount, InTurn, LastOf, BindsIn;
    var n, l := OnwardParts(NotStage(w, handle), true, FlagOuts(LeafFlags(w, handle)), d);
    negated, leaves, binds := None, [], [];
    if w.negated.Some? {
      var run := OutsComplete(w.negated.value, Out(!n.held, n.bound), handle, c);
      negated := Some(run);
    }
    if l.Some? {
      leaves, binds := LeavesComplete(w, l.value, handle, c);
    }
  }

  lemma {:induction false} TurnComplete(ws: seq<WhereNode>, o: Out, go: bool, handle: bytes, c: Capture) returns (runs: seq<Run>)
    requires o in TurnOuts(ws, go, handle) && handle != []
    ensures AllMean(ws, runs) && InTurn(ResultsOf(runs), |ws|, Ok(go)) && LastOf(ResultsOf(runs), Ok(go)) == Ok(o.held)
    ensures (BindsIn(LogAll(runs), handle) <==> o.bound) && AllSelf(LogAll(runs), c)
    decreases ws, 0
  {
    hide Outs, Onward, Means, Log, LogAll, BindsIn, AllSelf;
    NothingBinds(handle);
    NothingSelf(c);
    runs := [];
    if ws != [] {
      var a, b := OnwardParts(Outs(ws[0], handle), go, TurnOuts(ws[1..], go, handle), o);
      var run := OutsComplete(ws[0], a, handle, c);
      var rest: seq<Run> := [];
      if b.Some? {
        rest := TurnComplete(ws[1..], b.value, go, handle, c);
      }
      runs := [run] + rest;
      OneMoreInTurn(ws, run, rest, go);
      LogAllHead(run, rest);
      BindsInAppend(Log(run), LogAll(rest), handle);
      SelfAppend(Log(run), LogAll(rest), c);
    }
  }

  lemma SelfAppend(a: seq<Binding>, b: seq<Binding>, c: Capture)
    requires AllSelf(a, c) && AllSelf(b, c)
    ensures AllSelf(a + b, c)
  {
  }

  lemma OneMoreInTurn(ws: seq<WhereNode>, run: Run, rest: seq<Run>, go: bool)
    requires ws != [] && Means(ws[0], run) && run.result.Ok?
    requires if run.result == Ok(go) then AllMean(ws[1..], rest) && InTurn(ResultsOf(rest), |ws| - 1, Ok(go)) else rest == []
    ensures AllMean(ws, [run] + rest) && InTurn(ResultsOf([run] + rest), |ws|, Ok(go))
    ensures LastOf(ResultsOf([run] + rest), Ok(go))
         == if run.result == Ok(go) then LastOf(ResultsOf(rest), Ok(go)) else run.result
  {
    hide Means;
    var runs := [run] + rest;
    assert ResultsOf(runs) == [run.result] + ResultsOf(rest);
    forall i | 0 <= i < |ws| && i < |runs| ensures Means(ws[i], runs[i]) {
      if i > 0 {
        assert ws[1..][i - 1] == ws[i] && rest[i - 1] == runs[i];
      }
    }
  }

  // ----- when a true evaluation binds the handle -----

  lemma {:induction false} BoundIffInLog(log: seq<Binding>, handle: bytes)
    ensures LastBound(log, handle).Some? <==> BindsIn(log, handle)
    decreases |log|
  {
    if log == [] {
      NothingBinds(handle);
    } else {
      var n := |log| - 1;
      BoundIffInLog(log[..n], handle);
      assert log == log[..n] + [log[n]];
      BindsInAppend(log[..n], [log[n]], handle);
      hide BindsIn;
      OneBinds(log[n], handle);
    }
  }

  lemma {:induction false} LastBoundSelf(log: seq<Binding>, handle: bytes, c: Capture)
    requires AllSelf(log, c) && LastBound(log, handle).Some?
    ensures LastBound(log, handle).value == c
    decreases |log|
  {
    var n := |log| - 1;
    assert log[n] in log;
    if log[n].handle != handle {
      LastBoundSelf(log[..n], handle, c);
    }
  }

  lemma OneBinds(b: Binding, handle: bytes)
    ensures BindsIn([b], handle) <==> b.handle == handle
  {
    assert b in [b];
  }

  /** Every true evaluation leaves a handle's name alone exactly when the tree foresees no outcome that is true
      and binds it. */
  lemma NeverBoundIff(w: WhereNode, handle: bytes)
    requires handle != []
    ensures (forall run | Means(w, run) && run.result == Ok(true) :: LastBound(Log(run), handle).None?)
       <==> Out(true, true) !in Outs(w, handle)
  {
    hide Means, Log, Outs, BindsIn, LastBound;
    if Out(true, true) in Outs(w, handle) {
      var c := Capture([], "", 0, 0, 0, []);
      var run := OutsComplete(w, Out(true, true), handle, c);
      BoundIffInLog(Log(run), handle);
    } else {
      forall run | Means(w, run) && run.result == Ok(true) ensures LastBound(Log(run), handle).None? {
        OutsSound(w, run, handle);
        BoundIffInLog(Log(run), handle);
      }
    }
  }

  predicate Names(o: Option<SubPattern>, handle: bytes) {
    o.Some? && o.value.handle == handle
  }

  /** A leaf of the tree's own level has the handle. */
  predicate DeclaresHere(w: WhereNode, handle: bytes)
    decreases w
  {
    || (exists i | 0 <= i < |w.all| :: DeclaresHere(w.all[i], handle))
    || (exists i | 0 <= i < |w.any| :: DeclaresHere(w.any[i], handle))
    || (w.negated.Some? && DeclaresHere(w.negated.value, handle))
    || Names(w.inside, handle) || Names(w.contains, handle)
  }

  predicate AnyDeclares(ws: seq<WhereNode>, handle: bytes) {
    exists i | 0 <= i < |ws| :: DeclaresHere(ws[i], handle)
  }

  /** A name without a dot is exportable exactly when a leaf of the tree's own level has it for its handle. */
  lemma {:induction false} ExportedIffDeclared(w: WhereNode, handle: bytes)
    requires handle != [] && DOT !in handle
    ensures handle in Exports(w) <==> DeclaresHere(w, handle)
    decreases w, 1
  {
    AllExportedIffDeclared(w.all, handle);
    AllExportedIffDeclared(w.any, handle);
    LeafExportedIff(w.inside, handle);
    LeafExportedIff(w.contains, handle);
    if w.negated.Some? {
      ExportedIffDeclared(w.negated.value, handle);
    }
    hide LeafExports, AllExports;
  }

  lemma {:induction false} AllExportedIffDeclared(ws: seq<WhereNode>, handle: bytes)
    requires handle != [] && DOT !in handle
    ensures handle in AllExports(ws) <==> AnyDeclares(ws, handle)
    decreases ws, 0
  {
    hide Exports, DeclaresHere;
    if ws != [] {
      ExportedIffDeclared(ws[0], handle);
      AllExportedIffDeclared(ws[1..], handle);
      AnyDeclaresHead(ws, handle);
    }
  }

  lemma AnyDeclaresHead(ws: seq<WhereNode>, handle: bytes)
    requires ws != []
    ensures AnyDeclares(ws, handle) <==> DeclaresHere(ws[0], handle) || AnyDeclares(ws[1..], handle)
  {
    hide DeclaresHere;
    assert forall i | 0 < i < |ws| :: ws[i] == ws[1..][i - 1];
    if i :| 0 <= i < |ws[1..]| && DeclaresHere(ws[1..][i], handle) {
      assert DeclaresHere(ws[i + 1], handle);
    }
  }

  lemma LeafExportedIff(o: Option<SubPattern>, handle: bytes)
    requires handle != [] && DOT !in handle
    ensures handle in LeafExports(o) <==> Names(o, handle)
  {
    hide Base, Exports;
    if o.Some? && o.value.handle != [] {
      forall n ensures Exported(o.value.handle, n) != handle {
        assert Exported(o.value.handle, n)[|o.value.handle|] == DOT;
      }
    }
  }

  /** A handle no leaf of the own level has is bound in no outcome. */
  lemma {:induction false} UndeclaredNeverBound(w: WhereNode, handle: bytes, o: Out)
    requires !DeclaresHere(w, handle) && o in Outs(w, handle)
    ensures !o.bound
    decreases w, 1
  {
    OutsIs(w, handle);
    hide Outs, Onward, TurnOuts, LeafFlags, FlagOuts;
    var a, r := OnwardParts(TurnOuts(w.all, true, handle), true, BehindAll(w, handle), o);
    TurnUndeclared(w.all, true, handle, a);
    if r.Some? {
      var b, s := OnwardParts(AnyStage(w, handle), true, BehindAny(w, handle), r.value);
      if w.any != [] {
        TurnUndeclared(w.any, false, handle, b);
      }
      if s.Some? {
        var c, l := OnwardParts(NotStage(w, handle), true, FlagOuts(LeafFlags(w, handle)), s.value);
        if w.negated.Some? {
          UndeclaredNeverBound(w.negated.value, handle, Out(!c.held, c.bound));
        }
        if l.Some? {
          var k := FlagOutsComplete(LeafFlags(w, handle), l.value);
          FlagIs(w, handle);
          FlagsAt(w, handle, k);
        }
      }
    }
  }

  lemma {:induction false} TurnUndeclared(ws: seq<WhereNode>, go: bool, handle: bytes, o: Out)
    requires !AnyDeclares(ws, handle) && o in TurnOuts(ws, go, handle)
    ensures !o.bound
    decreases ws, 0
  {
    hide Outs, Onward, DeclaresHere;
    if ws != [] {
      AnyDeclaresHead(ws, handle);
      var a, b := OnwardParts(Outs(ws[0], handle), go, TurnOuts(ws[1..], go, handle), o);
      UndeclaredNeverBound(ws[0], handle, a);
      if b.Some? {
        TurnUndeclared(ws[1..], go, handle, b.value);
      }
    }
  }

  // ----- nodes of one stage -----

  lemma PassesOn(outs: set<Out>)
    ensures Onward({Out(true, false)}, true, outs) == outs && Onward(outs, true, {Out(true, false)}) == outs
  {
    forall o | o in outs
      ensures o in Onward({Out(true, false)}, true, outs) && o in Onward(outs, true, {Out(true, false)})
    {
      OnwardGoes({Out(true, false)}, true, outs, Out(true, false), o);
      assert o == Out(o.held, false || o.bound);
      if o.held {
        OnwardGoes(outs, true, {Out(true, false)}, o, Out(true, false));
        assert o == Out(true, o.bound || false);
      }
    }
  }

  /** A node that is only leaves, or only a negated child. */
  lemma OneStage(w: WhereNode, handle: bytes)
    requires w.all == [] && w.any == []
    ensures w.negated.None? ==> Outs(w, handle) == FlagOuts(LeafFlags(w, handle))
    ensures w.negated.Some? && LeafFlags(w, handle) == [] ==> Outs(w, handle) == Flipped(Outs(w.negated.value, handle))
  {
    OutsIs(w, handle);
    hide Onward, LeafFlags, Outs, Flipped;
    PassesOn(BehindAll(w, handle));
    PassesOn(BehindAny(w, handle));
    PassesOn(FlagOuts(LeafFlags(w, handle)));
    PassesOn(NotStage(w, handle));
  }
}
