/**
 A walk over many files by workers that interleave freely. Every atomic addition and every section under
 the lock is a step of its own. What a completed walk reports does not depend on the interleaving, and a
 counting walk reports exactly what a matching walk finds.
 */
module Schedule {
  import opened Collect
  import CountHandles
  import opened Outcomes
  import opened SyntaxTree
  import opened WhereTree

  datatype SkipReason = ReadFailed | ParseFailed | ParseTimedOut

  /** What one file comes to: declined, or parsed, with what matching it finds and what counting it finds, or
      the error its where-tree raises. */
  datatype File = Declined(path: string, reason: SkipReason)
                | Parsed(path: string, degraded: bool, found: Result<seq<FileMatch>, string>, lights: Result<seq<Light>, string>)

  /** How far the file's worker has come. */
  datatype Stage = Queued | Taken | Scanned | Flagged | Recorded | Finished

  /** The walk's atomic counters. */
  datatype Counters = Counters(scanned: int, skippedRead: int, skippedParseError: int, skippedParseLimit: int,
                               filesDegraded: int, matchesDegraded: int)

  /** What the workers share under the lock: the matches, or the tally when counting. */
  datatype Sink = Sink(firstErr: Option<string>, results: seq<FileMatch>, total: int, byFile: map<string, int>, byKind: map<string, int>)

  datatype State = State(files: seq<File>, stages: seq<Stage>, counting: bool, counters: Counters, sink: Sink)

  function Start(files: seq<File>, counting: bool): State {
    State(files, seq(|files|, _ => Queued), counting, Counters(0, 0, 0, 0, 0, 0), Sink(None, [], 0, map[], map[]))
  }

  function Found(f: File): seq<FileMatch> {
    if f.Parsed? && f.found.Ok? then f.found.value else []
  }

  function Seen(f: File): seq<Light> {
    if f.Parsed? && f.lights.Ok? then f.lights.value else []
  }

  /** How many results the file yields to a walk of this kind. */
  function Yield(f: File, counting: bool): nat {
    if counting then |Seen(f)| else |Found(f)|
  }

  /** Both kinds of walk run the file's collection on the same trials, whose hits the where-tree let through. */
  ghost predicate IsCollected(where: Option<WhereNode>, f: File) {
    f.Parsed? ==>
      exists variants, walk, trial, at :: Collects(where, f, variants, walk, trial, at)
  }

  ghost predicate Collects(where: Option<WhereNode>, f: File, variants: seq<Variant>, walk: seq<nat>,
          trial: (nat, nat) -> Trial, at: nat -> Range)
    requires f.Parsed?
  {
    && CountHandles.Filtered(where, trial, at)
    && f.found == Collected(variants, walk, Matching(trial)) && f.lights == Collected(variants, walk, Counting(trial, at))
  }

  predicate Alike(f: File) {
    f.Parsed? ==> f.lights == LightsOf(f.found)
  }

  lemma CollectedAlike(where: Option<WhereNode>, f: File)
    requires IsCollected(where, f) && !CountHandles.MayMove(where)
    ensures Alike(f)
  {
    hide Collected, CountHandles.Filtered, CountHandles.MayMove;
    if f.Parsed? {
      var variants, walk, trial, at :| Collects(where, f, variants, walk, trial, at);
      CountHandles.FilteredKeepsNode(where, trial, at);
      CountsAreMatches(variants, walk, trial, at);
    }
  }

  lemma AlikeSees(f: File)
    requires Alike(f)
    ensures Seen(f) == Lights(Found(f)) && |Seen(f)| == |Found(f)|
  {
    LightsLength(Found(f));
  }

  lemma LightsLength(ms: seq<FileMatch>)
    ensures |Lights(ms)| == |ms| && (ms == [] ==> Lights(ms) == [])
  {
  }

  function Get(m: map<string, int>, k: string): int {
    if k in m then m[k] else 0
  }

  function Bump(m: map<string, int>, k: string, n: int): map<string, int> {
    m[k := Get(m, k) + n]
  }

  /** One file's kinds, added to the tally. */
  function BumpKinds(m: map<string, int>, lights: seq<Light>): map<string, int> {
    if lights == [] then m else Bump(BumpKinds(m, lights[..|lights| - 1]), lights[|lights| - 1].kind, 1)
  }

  function SkippedTotal(c: Counters): int {
    c.skippedRead + c.skippedParseError + c.skippedParseLimit
  }

  /** The file's result goes to the sink its walk has. */
  function Merged(s: Sink, f: File, counting: bool): Sink {
    if f.Declined? then s else if counting then Tallied(s, f.path, f.lights) else Appended(s, f.found)
  }

  function Failed(s: Sink, e: string): Sink {
    if s.firstErr.None? then s.(firstErr := Some(e)) else s
  }

  function Appended(s: Sink, found: Result<seq<FileMatch>, string>): Sink {
    match found
    case Err(e) => Failed(s, e)
    case Ok(ms) => s.(results := s.results + ms)
  }

  function Tallied(s: Sink, path: string, lights: Result<seq<Light>, string>): Sink {
    match lights
    case Err(e) => Failed(s, e)
    case Ok(ls) =>
      if ls == [] then s
      else s.(total := s.total + |ls|, byFile := Bump(s.byFile, path, |ls|), byKind := BumpKinds(s.byKind, ls))
  }

  function Skip(c: Counters, reason: SkipReason): Counters {
    match reason
    case ReadFailed => c.(skippedRead := c.skippedRead + 1)
    case ParseFailed => c.(skippedParseError := c.skippedParseError + 1)
    case ParseTimedOut => c.(skippedParseLimit := c.skippedParseLimit + 1)
  }

  /** Where the worker holding the file goes next. */
  function Onward(f: File, stage: Stage): Option<Stage> {
    match stage
    case Queued => Some(Taken)
    case Taken => Some(if f.Declined? then Finished else Scanned)
    case Scanned => if f.Declined? then None else Some(if f.degraded then Flagged else Recorded)
    case Flagged => if f.Declined? || !f.degraded then None else Some(Recorded)
    case Recorded => if f.Declined? then None else Some(Finished)
    case Finished => None
  }

  /** The counter the step adds to. */
  function Counted(c: Counters, f: File, stage: Stage, counting: bool): Counters {
    match stage
    case Taken => if f.Declined? then Skip(c, f.reason) else c.(scanned := c.scanned + 1)
    case Scanned => if f.Parsed? && f.degraded then c.(filesDegraded := c.filesDegraded + 1) else c
    case Flagged => c.(matchesDegraded := c.matchesDegraded + Yield(f, counting))
    case _ => c
  }

  /** The next step of the worker holding file `i`. */
  function Next(s: State, i: nat): Option<State>
    requires |s.stages| == |s.files|
  {
    if i >= |s.files| || Onward(s.files[i], s.stages[i]).None? then None
    else
      var f, stage := s.files[i], s.stages[i];
      Some(State(s.files, s.stages[i := Onward(f, stage).value], s.counting, Counted(s.counters, f, stage, s.counting),
                 if stage.Recorded? then Merged(s.sink, f, s.counting) else s.sink))
  }

  /** A run from the start: `moves` says whose worker steps next. */
  ghost predicate IsRun(states: seq<State>, moves: seq<nat>, files: seq<File>, counting: bool) {
    && |states| == |moves| + 1 && states[0] == Start(files, counting)
    && (forall k | 0 <= k < |states| :: states[k].files == files && |states[k].stages| == |files| && states[k].counting == counting)
    && forall k | 0 <= k < |moves| :: Next(states[k], moves[k]) == Some(states[k + 1])
  }

  predicate Complete(s: State) {
    forall i | 0 <= i < |s.stages| :: s.stages[i] == Finished
  }

  // ----- quantities that add up over the files -----

  function Sum(files: seq<File>, stages: seq<Stage>, share: (File, Stage) -> int): int
    requires |files| == |stages|
  {
    if files == [] then 0
    else Sum(files[..|files| - 1], stages[..|files| - 1], share) + share(files[|files| - 1], stages[|files| - 1])
  }

  lemma {:induction false} SumMoves(files: seq<File>, stages: seq<Stage>, share: (File, Stage) -> int, i: nat,
          stage: Stage)
    requires |files| == |stages| && i < |files|
    ensures Sum(files, stages[i := stage], share) == Sum(files, stages, share) - share(files[i], stages[i]) + share(files[i], stage)
    decreases |files|
  {
    var n := |files| - 1;
    if i < n {
      SumMoves(files[..n], stages[..n], share, i, stage);
      assert stages[i := stage][..n] == stages[..n][i := stage];
    } else {
      assert stages[i := stage][..n] == stages[..n];
    }
  }

  lemma {:induction false} SumStarts(files: seq<File>, stages: seq<Stage>, share: (File, Stage) -> int)
    requires |files| == |stages| && forall i | 0 <= i < |files| :: share(files[i], stages[i]) == 0
    ensures Sum(files, stages, share) == 0
    decreases |files|
  {
    if files != [] {
      SumStarts(files[..|files| - 1], stages[..|files| - 1], share);
    }
  }

  /** The quantity starts at nothing and every step changes it by what the moving file's share changes. */
  ghost predicate AddsUp(states: seq<State>, moves: seq<nat>, quantity: State -> int, share: (File, Stage) -> int) {
    && |states| == |moves| + 1 && quantity(states[0]) == 0
    && (forall f :: share(f, Queued) == 0)
    && forall k | 0 <= k < |moves| :: Steps(states[k], states[k + 1], moves[k], quantity, share)
  }

  predicate Steps(s: State, s': State, i: nat, quantity: State -> int, share: (File, Stage) -> int) {
    && i < |s.files| == |s.stages| == |s'.stages| && s'.stages == s.stages[i := s'.stages[i]]
    && quantity(s') - quantity(s) == share(s.files[i], s'.stages[i]) - share(s.files[i], s.stages[i])
  }

  lemma {:induction false} QuantityIsSum(states: seq<State>, moves: seq<nat>, files: seq<File>, counting: bool,
          quantity: State -> int, share: (File, Stage) -> int, k: nat)
    requires IsRun(states, moves, files, counting) && AddsUp(states, moves, quantity, share) && k < |states|
    ensures quantity(states[k]) == Sum(files, states[k].stages, share)
    decreases k
  {
    hide Next;
    if k == 0 {
      SumStarts(files, states[0].stages, share);
    } else {
      QuantityIsSum(states, moves, files, counting, quantity, share, k - 1);
      assert Steps(states[k - 1], states[k - 1 + 1], moves[k - 1], quantity, share);
      SumMoves(files, states[k - 1].stages, share, moves[k - 1], states[k].stages[moves[k - 1]]);
    }
  }

  lemma {:induction false} SumOfEqualShares(files: seq<File>, stages: seq<Stage>, stages': seq<Stage>,
          share: (File, Stage) -> int, share': (File, Stage) -> int)
    requires |files| == |stages| == |stages'|
    requires forall i | 0 <= i < |files| :: share(files[i], stages[i]) == share'(files[i], stages'[i])
    ensures Sum(files, stages, share) == Sum(files, stages', share')
    decreases |files|
  {
    if files != [] {
      SumOfEqualShares(files[..|files| - 1], stages[..|files| - 1], stages'[..|files| - 1], share, share');
    }
  }

  // ----- the quantities -----

  function CountIf(ms: seq<FileMatch>, p: FileMatch -> bool): nat {
    if ms == [] then 0 else CountIf(ms[..|ms| - 1], p) + if p(ms[|ms| - 1]) then 1 else 0
  }

  lemma {:induction false} CountIfAppend(a: seq<FileMatch>, b: seq<FileMatch>, p: FileMatch -> bool)
    ensures CountIf(a + b, p) == CountIf(a, p) + CountIf(b, p)
    decreases |b|
  {
    if b == [] {
      assert a + b == a;
    } else {
      assert (a + b)[..|a + b| - 1] == a + b[..|b| - 1];
      CountIfAppend(a, b[..|b| - 1], p);
    }
  }

  function ScannedShare(): (File, Stage) -> int {
    (f: File, st: Stage) => if f.Parsed? && !st.Queued? && !st.Taken? then 1 else 0
  }

  function SkippedShare(): (File, Stage) -> int {
    (f: File, st: Stage) => if f.Declined? && st.Finished? then 1 else 0
  }

  function DegradedShare(): (File, Stage) -> int {
    (f: File, st: Stage) => if f.Parsed? && f.degraded && (st.Flagged? || st.Recorded? || st.Finished?) then 1 else 0
  }

  function DegradedMatchesShare(counting: bool): (File, Stage) -> int {
    (f: File, st: Stage) => if f.Parsed? && f.degraded && (st.Recorded? || st.Finished?) then Yield(f, counting) else 0
  }

  /** A file's matches satisfying `p`, once merged. */
  function MatchShare(p: FileMatch -> bool): (File, Stage) -> int {
    (f: File, st: Stage) => if st.Finished? then CountIf(Found(f), p) else 0
  }

  function PathShare(path: string): (File, Stage) -> int {
    (f: File, st: Stage) => if st.Finished? && f.path == path then |Found(f)| else 0
  }

  function SizeShare(): (File, Stage) -> int {
    (f: File, st: Stage) => if st.Finished? then |Found(f)| else 0
  }

  lemma NoneCounted(p: FileMatch -> bool)
    ensures CountIf([], p) == 0
  {
  }

  // What the shares add up to. Each is a function of the state, named so that two mentions are one function.

  function ScannedNow(): State -> int { (s: State) => s.counters.scanned }

  function SkippedNow(): State -> int { (s: State) => SkippedTotal(s.counters) }

  function DegradedNow(): State -> int { (s: State) => s.counters.filesDegraded }

  function DegradedMatchesNow(): State -> int { (s: State) => s.counters.matchesDegraded }

  function ResultsNow(p: FileMatch -> bool): State -> int { (s: State) => CountIf(s.sink.results, p) }

  function TotalNow(): State -> int { (s: State) => s.sink.total }

  function ByFileNow(path: string): State -> int { (s: State) => Get(s.sink.byFile, path) }

  function ByKindNow(kind: string): State -> int { (s: State) => Get(s.sink.byKind, kind) }

  ghost function ByFileSum(): State -> int { (s: State) => SumMap(s.sink.byFile) }

  ghost function ByKindSum(): State -> int { (s: State) => SumMap(s.sink.byKind) }

  function OfKind(kind: string): FileMatch -> bool { (m: FileMatch) => m.kind == kind }

  function OfPath(path: string): FileMatch -> bool { (m: FileMatch) => m.path == path }

  function Exactly(r: FileMatch): FileMatch -> bool { (m: FileMatch) => m == r }

  function AnyMatch(): FileMatch -> bool { (m: FileMatch) => true }

  lemma ScannedSteps(s: State, i: nat)
    requires |s.stages| == |s.files| && Next(s, i).Some?
    ensures Steps(s, Next(s, i).value, i, ScannedNow(), ScannedShare())
  {
    hide Lights, BumpKinds, Bump;
  }

  lemma SkippedSteps(s: State, i: nat)
    requires |s.stages| == |s.files| && Next(s, i).Some?
    ensures Steps(s, Next(s, i).value, i, SkippedNow(), SkippedShare())
  {
    hide Lights, BumpKinds, Bump;
  }

  lemma DegradedSteps(s: State, i: nat)
    requires |s.stages| == |s.files| && Next(s, i).Some?
    ensures Steps(s, Next(s, i).value, i, DegradedNow(), DegradedShare())
  {
    hide Lights, BumpKinds, Bump;
  }

  lemma DegradedMatchesSteps(s: State, i: nat)
    requires |s.stages| == |s.files| && Next(s, i).Some?
    ensures Steps(s, Next(s, i).value, i, DegradedMatchesNow(), DegradedMatchesShare(s.counting))
  {
    hide Lights, BumpKinds, Bump;
  }

  lemma MatchSteps(s: State, i: nat, p: FileMatch -> bool)
    requires |s.stages| == |s.files| && !s.counting && Next(s, i).Some?
    ensures Steps(s, Next(s, i).value, i, ResultsNow(p), MatchShare(p))
  {
    hide CountIf, Lights, BumpKinds, Bump;
    NoneCounted(p);
    if s.stages[i].Recorded? {
      CountIfAppend(s.sink.results, Found(s.files[i]), p);
      assert s.sink.results + [] == s.sink.results;
    }
  }

  // ----- sums over a tally -----

  ghost function SumMap(m: map<string, int>): int {
    if m == map[] then 0 else var k :| k in m; m[k] + SumMap(m - {k})
  }

  lemma {:induction false} SumMapAny(m: map<string, int>, k: string)
    requires k in m
    ensures SumMap(m) == m[k] + SumMap(m - {k})
    decreases |m|
  {
    var j :| j in m && SumMap(m) == m[j] + SumMap(m - {j});
    if j != k {
      SumMapAny(m - {j}, k);
      SumMapAny(m - {k}, j);
      assert m - {j} - {k} == m - {k} - {j};
    }
  }

  lemma SumMapBump(m: map<string, int>, k: string, n: int)
    ensures SumMap(Bump(m, k, n)) == SumMap(m) + n
  {
    var b := Bump(m, k, n);
    SumMapAny(b, k);
    if k in m {
      SumMapAny(m, k);
      assert b - {k} == m - {k};
    } else {
      assert b - {k} == m;
    }
  }

  lemma {:induction false} BumpKindsCounts(m: map<string, int>, ms: seq<FileMatch>, kind: string)
    ensures Get(BumpKinds(m, Lights(ms)), kind) == Get(m, kind) + CountIf(ms, OfKind(kind))
    ensures SumMap(BumpKinds(m, Lights(ms))) == SumMap(m) + |ms|
    decreases |ms|
  {
    hide SumMap;
    if ms == [] {
      assert Lights(ms) == [];
    } else {
      var n := |ms| - 1;
      assert Lights(ms)[..n] == Lights(ms[..n]);
      BumpKindsCounts(m, ms[..n], kind);
      SumMapBump(BumpKinds(m, Lights(ms[..n])), ms[n].kind, 1);
    }
  }

  lemma FileTallySteps(s: State, i: nat, path: string)
    requires |s.stages| == |s.files| && s.counting && Next(s, i).Some? && Alike(s.files[i])
    ensures var s' := Next(s, i).value;
            && Steps(s, s', i, TotalNow(), SizeShare()) && Steps(s, s', i, ByFileNow(path), PathShare(path))
            && Steps(s, s', i, ByFileSum(), SizeShare())
  {
    hide SumMap, Lights, BumpKinds, Bump;
    if s.stages[i].Recorded? {
      var f := s.files[i];
      AlikeSees(f);
      SumMapBump(s.sink.byFile, f.path, |Found(f)|);
      BumpGets(s.sink.byFile, f.path, |Found(f)|, path);
    }
  }

  lemma KindTallySteps(s: State, i: nat, kind: string)
    requires |s.stages| == |s.files| && s.counting && Next(s, i).Some? && Alike(s.files[i])
    ensures var s' := Next(s, i).value;
            && Steps(s, s', i, ByKindNow(kind), MatchShare(OfKind(kind))) && Steps(s, s', i, ByKindSum(), SizeShare())
  {
    hide CountIf, SumMap, Lights, BumpKinds, Bump;
    NoneCounted(OfKind(kind));
    if s.stages[i].Recorded? {
      AlikeSees(s.files[i]);
      BumpKindsCounts(s.sink.byKind, Found(s.files[i]), kind);
    }
  }

  lemma BumpGets(m: map<string, int>, k: string, n: int, j: string)
    ensures Get(Bump(m, k, n), j) == Get(m, j) + if j == k then n else 0
  {
  }

  // ----- completed walks -----

  /** A completed run's share sums depend on the files alone. */
  ghost function FileSum(files: seq<File>, share: (File, Stage) -> int): int {
    Sum(files, seq(|files|, _ => Finished), share)
  }

  lemma CompletedSum(states: seq<State>, moves: seq<nat>, files: seq<File>, counting: bool,
          quantity: State -> int, share: (File, Stage) -> int)
    requires IsRun(states, moves, files, counting) && AddsUp(states, moves, quantity, share) && Complete(states[|moves|])
    ensures quantity(states[|moves|]) == FileSum(files, share)
  {
    hide Next;
    QuantityIsSum(states, moves, files, counting, quantity, share, |moves|);
    assert states[|moves|].stages == seq(|files|, _ => Finished);
  }

  lemma CountersAddUp(states: seq<State>, moves: seq<nat>, files: seq<File>, counting: bool)
    requires IsRun(states, moves, files, counting)
    ensures AddsUp(states, moves, ScannedNow(), ScannedShare()) && AddsUp(states, moves, SkippedNow(), SkippedShare())
    ensures AddsUp(states, moves, DegradedNow(), DegradedShare())
    ensures AddsUp(states, moves, DegradedMatchesNow(), DegradedMatchesShare(counting))
  {
    hide Next, Steps;
    forall k | 0 <= k < |moves|
      ensures Steps(states[k], states[k + 1], moves[k], ScannedNow(), ScannedShare())
      ensures Steps(states[k], states[k + 1], moves[k], SkippedNow(), SkippedShare())
      ensures Steps(states[k], states[k + 1], moves[k], DegradedNow(), DegradedShare())
      ensures Steps(states[k], states[k + 1], moves[k], DegradedMatchesNow(), DegradedMatchesShare(counting))
    {
      assert Next(states[k], moves[k]) == Some(states[k + 1]);
      ScannedSteps(states[k], moves[k]);
      SkippedSteps(states[k], moves[k]);
      DegradedSteps(states[k], moves[k]);
      DegradedMatchesSteps(states[k], moves[k]);
    }
  }

  lemma MatchesAddUp(states: seq<State>, moves: seq<nat>, files: seq<File>, p: FileMatch -> bool)
    requires IsRun(states, moves, files, false)
    ensures AddsUp(states, moves, ResultsNow(p), MatchShare(p))
  {
    hide Next, Steps;
    NoneCounted(p);
    hide CountIf;
    forall k | 0 <= k < |moves| ensures Steps(states[k], states[k + 1], moves[k], ResultsNow(p), MatchShare(p)) {
      assert Next(states[k], moves[k]) == Some(states[k + 1]);
      MatchSteps(states[k], moves[k], p);
    }
  }

  lemma InRange(s: State, i: nat)
    requires |s.stages| == |s.files| && Next(s, i).Some?
    ensures i < |s.files|
  {
  }

  lemma TallyAddsUp(states: seq<State>, moves: seq<nat>, files: seq<File>, path: string, kind: string)
    requires IsRun(states, moves, files, true) && forall f | f in files :: Alike(f)
    ensures AddsUp(states, moves, TotalNow(), SizeShare()) && AddsUp(states, moves, ByFileNow(path), PathShare(path))
    ensures AddsUp(states, moves, ByKindNow(kind), MatchShare(OfKind(kind)))
    ensures AddsUp(states, moves, ByFileSum(), SizeShare()) && AddsUp(states, moves, ByKindSum(), SizeShare())
  {
    hide Next, Steps, CountIf;
    forall k | 0 <= k < |moves|
      ensures Steps(states[k], states[k + 1], moves[k], TotalNow(), SizeShare())
      ensures Steps(states[k], states[k + 1], moves[k], ByFileNow(path), PathShare(path))
      ensures Steps(states[k], states[k + 1], moves[k], ByKindNow(kind), MatchShare(OfKind(kind)))
      ensures Steps(states[k], states[k + 1], moves[k], ByFileSum(), SizeShare())
      ensures Steps(states[k], states[k + 1], moves[k], ByKindSum(), SizeShare())
    {
      assert Next(states[k], moves[k]) == Some(states[k + 1]);
      assert states[k].files[moves[k]] in files by { InRange(states[k], moves[k]); }
      FileTallySteps(states[k], moves[k], path);
      KindTallySteps(states[k], moves[k], kind);
    }
  }

  lemma {:induction false} CountIsMultiplicity(ms: seq<FileMatch>, r: FileMatch)
    ensures CountIf(ms, Exactly(r)) == multiset(ms)[r]
    decreases |ms|
  {
    if ms != [] {
      CountIsMultiplicity(ms[..|ms| - 1], r);
      assert ms == ms[..|ms| - 1] + [ms[|ms| - 1]];
    }
  }

  lemma {:induction false} CountAll(ms: seq<FileMatch>)
    ensures CountIf(ms, AnyMatch()) == |ms|
    decreases |ms|
  {
    if ms != [] {
      CountAll(ms[..|ms| - 1]);
    }
  }

  /** Two completed matching walks over the same files report the same matches, whatever the interleaving. */
  lemma MatchRunsAgree(a: seq<State>, movesA: seq<nat>, b: seq<State>, movesB: seq<nat>, files: seq<File>)
    requires IsRun(a, movesA, files, false) && Complete(a[|movesA|])
    requires IsRun(b, movesB, files, false) && Complete(b[|movesB|])
    ensures multiset(a[|movesA|].sink.results) == multiset(b[|movesB|].sink.results)
  {
    hide Next, Complete, AddsUp, CountIf, FileSum, MatchShare, Exactly;
    forall r ensures multiset(a[|movesA|].sink.results)[r] == multiset(b[|movesB|].sink.results)[r] {
      MatchesAddUp(a, movesA, files, Exactly(r));
      MatchesAddUp(b, movesB, files, Exactly(r));
      CompletedSum(a, movesA, files, false, ResultsNow(Exactly(r)), MatchShare(Exactly(r)));
      CompletedSum(b, movesB, files, false, ResultsNow(Exactly(r)), MatchShare(Exactly(r)));
      CountIsMultiplicity(a[|movesA|].sink.results, r);
      CountIsMultiplicity(b[|movesB|].sink.results, r);
    }
  }

  /** Every file is scanned or skipped, and both kinds of walk count the same files and degraded matches. */
  lemma EveryFileAccounted(a: seq<State>, moves: seq<nat>, files: seq<File>, counting: bool)
    requires IsRun(a, moves, files, counting) && Complete(a[|moves|])
    ensures var s := a[|moves|].counters;
            && s.scanned + SkippedTotal(s) == |files|
            && s.scanned == FileSum(files, ScannedShare()) && s.filesDegraded == FileSum(files, DegradedShare())
            && s.matchesDegraded == FileSum(files, DegradedMatchesShare(counting))
  {
    hide Next, Complete, AddsUp;
    CountersAddUp(a, moves, files, counting);
    CompletedSum(a, moves, files, counting, ScannedNow(), ScannedShare());
    CompletedSum(a, moves, files, counting, SkippedNow(), SkippedShare());
    CompletedSum(a, moves, files, counting, DegradedNow(), DegradedShare());
    CompletedSum(a, moves, files, counting, DegradedMatchesNow(), DegradedMatchesShare(counting));
    ScannedOrSkipped(files, seq(|files|, _ => Finished));
  }

  lemma {:induction false} ScannedOrSkipped(files: seq<File>, stages: seq<Stage>)
    requires |stages| == |files| && forall i | 0 <= i < |stages| :: stages[i] == Finished
    ensures Sum(files, stages, ScannedShare()) + Sum(files, stages, SkippedShare()) == |files|
    decreases |files|
  {
    if files != [] {
      ScannedOrSkipped(files[..|files| - 1], stages[..|files| - 1]);
    }
  }

  /** Every match of a file carries the file's path. */
  predicate PathsStamped(files: seq<File>) {
    forall i, m | 0 <= i < |files| && m in Found(files[i]) :: m.path == files[i].path
  }

  lemma {:induction false} CountOfPath(ms: seq<FileMatch>, own: string, path: string)
    requires forall m | m in ms :: m.path == own
    ensures CountIf(ms, OfPath(path)) == if own == path then |ms| else 0
    decreases |ms|
  {
    if ms != [] {
      CountOfPath(ms[..|ms| - 1], own, path);
      assert ms[|ms| - 1] in ms;
    }
  }

  /** Where the where-tree cannot move what stands under "match", a counting walk reports of any completed matching
      walk over the same files its number of matches, its matches of each file and of each kind, and both
      breakdowns sum to the total. */
  lemma CountAgreesWithMatch(a: seq<State>, movesA: seq<nat>, b: seq<State>, movesB: seq<nat>, files: seq<File>,
          where: Option<WhereNode>, path: string, kind: string)
    requires IsRun(a, movesA, files, false) && Complete(a[|movesA|])
    requires IsRun(b, movesB, files, true) && Complete(b[|movesB|])
    requires PathsStamped(files) && !CountHandles.MayMove(where) && forall f | f in files :: IsCollected(where, f)
    ensures var matched, counted := a[|movesA|], b[|movesB|];
            && counted.sink.total == |matched.sink.results|
            && Get(counted.sink.byFile, path) == CountIf(matched.sink.results, OfPath(path))
            && Get(counted.sink.byKind, kind) == CountIf(matched.sink.results, OfKind(kind))
            && SumMap(counted.sink.byFile) == counted.sink.total && SumMap(counted.sink.byKind) == counted.sink.total
  {
    var matched, counted := a[|movesA|], b[|movesB|];
    SharesMatch(files, path);
    forall f | f in files ensures Alike(f) {
      CollectedAlike(where, f);
    }
    hide Alike, IsCollected;
    hide Next, Complete, AddsUp, CountIf, FileSum, MatchShare, PathShare, SizeShare, SumMap, PathsStamped;
    MatchesAddUp(a, movesA, files, AnyMatch());
    MatchesAddUp(a, movesA, files, OfPath(path));
    MatchesAddUp(a, movesA, files, OfKind(kind));
    CompletedSum(a, movesA, files, false, ResultsNow(AnyMatch()), MatchShare(AnyMatch()));
    CompletedSum(a, movesA, files, false, ResultsNow(OfPath(path)), MatchShare(OfPath(path)));
    CompletedSum(a, movesA, files, false, ResultsNow(OfKind(kind)), MatchShare(OfKind(kind)));
    CountAll(matched.sink.results);
    TallyAddsUp(b, movesB, files, path, kind);
    CompletedSum(b, movesB, files, true, TotalNow(), SizeShare());
    CompletedSum(b, movesB, files, true, ByFileNow(path), PathShare(path));
    CompletedSum(b, movesB, files, true, ByKindNow(kind), MatchShare(OfKind(kind)));
    CompletedSum(b, movesB, files, true, ByFileSum(), SizeShare());
    CompletedSum(b, movesB, files, true, ByKindSum(), SizeShare());
  }

  lemma SharesMatch(files: seq<File>, path: string)
    requires PathsStamped(files)
    ensures FileSum(files, MatchShare(AnyMatch())) == FileSum(files, SizeShare())
    ensures FileSum(files, MatchShare(OfPath(path))) == FileSum(files, PathShare(path))
  {
    hide CountIf;
    var done := seq(|files|, _ => Finished);
    forall i | 0 <= i < |files|
      ensures CountIf(Found(files[i]), AnyMatch()) == |Found(files[i])|
      ensures CountIf(Found(files[i]), OfPath(path)) == if files[i].path == path then |Found(files[i])| else 0
    {
      CountAll(Found(files[i]));
      CountOfPath(Found(files[i]), files[i].path, path);
    }
    SumOfEqualShares(files, done, done, MatchShare(AnyMatch()), SizeShare());
    SumOfEqualShares(files, done, done, MatchShare(OfPath(path)), PathShare(path));
  }

  // ----- where the where-tree moves a match -----

  /** The state once the walk's only worker, holding a file that parses whole, has come to the stage. */
  function SoleAt(f: File, counting: bool, stage: Stage): State {
    var s := Start([f], counting);
    State([f], [stage], counting, if stage.Queued? || stage.Taken? then s.counters else s.counters.(scanned := 1),
          if stage.Finished? then Merged(s.sink, f, counting) else s.sink)
  }

  function SoleRun(f: File, counting: bool): seq<State> {
    [SoleAt(f, counting, Queued), SoleAt(f, counting, Taken), SoleAt(f, counting, Scanned), SoleAt(f, counting, Recorded),
     SoleAt(f, counting, Finished)]
  }

  lemma SoleSteps(f: File, counting: bool, stage: Stage)
    requires f.Parsed? && !f.degraded && !stage.Flagged? && !stage.Finished?
    ensures Onward(f, stage).Some? && Next(SoleAt(f, counting, stage), 0) == Some(SoleAt(f, counting, Onward(f, stage).value))
  {
    hide Merged;
    assert [stage][0 := Onward(f, stage).value] == [Onward(f, stage).value];
  }

  lemma SoleRuns(f: File, counting: bool)
    requires f.Parsed? && !f.degraded
    ensures IsRun(SoleRun(f, counting), [0, 0, 0, 0], [f], counting) && Complete(SoleRun(f, counting)[4])
    ensures SoleRun(f, counting)[4].sink == Merged(Start([f], counting).sink, f, counting)
  {
    SoleSteps(f, counting, Queued);
    SoleSteps(f, counting, Taken);
    SoleSteps(f, counting, Scanned);
    SoleSteps(f, counting, Recorded);
    assert Start([f], counting) == SoleAt(f, counting, Queued);
    hide Next, Merged;
  }

  /** A where-tree that may move what stands under "match" has a file whose one match is counted as two. */
  lemma MovedMatchesCountTwice(where: Option<WhereNode>) returns (f: File)
    requires CountHandles.MayMove(where)
    ensures IsCollected(where, f)
    ensures IsRun(SoleRun(f, false), [0, 0, 0, 0], [f], false) && IsRun(SoleRun(f, true), [0, 0, 0, 0], [f], true)
    ensures Complete(SoleRun(f, false)[4]) && Complete(SoleRun(f, true)[4])
    ensures |SoleRun(f, false)[4].sink.results| == 1 && SoleRun(f, true)[4].sink.total == 2
  {
    hide Collected, CountHandles.Filtered, CountHandles.MayMove, IsRun, Complete;
    var trial, at, m := CountHandles.MovedMatchesCollapse(where);
    var variants := CountHandles.TwoNodes();
    f := Parsed("", false, Collected(variants, [], Matching(trial)), Collected(variants, [], Counting(trial, at)));
    assert Collects(where, f, variants, [], trial, at);
    SoleRuns(f, false);
    SoleRuns(f, true);
    hide SoleRun;
  }
}
