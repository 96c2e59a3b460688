/**
 The process-wide admission gate, every channel operation, atomic load, compare-and-swap and atomic add
 a step of its own, walkers interleaving freely.
 */
module Gate {
  import opened Outcomes

  /** Where one walker stands. `now` is the in-flight count its own addition returned. */
  datatype Phase =
    | Outside
    | Waiting
    | Permitted
    | Raising(now: int)
    | Comparing(now: int, seen: int)
    | Admitted
    | Leaving
    | Cancelled

  /** `high` remembers the largest in-flight count so far; no walker reads it. */
  datatype State = State(slots: nat, permits: int, inFlight: int, peak: int, walkers: map<nat, Phase>, high: int)

  datatype Act = Arrive | TakePermit | Cancel | AddOne | LoadPeak | CompareAndSwap | SubtractOne | ReturnPermit | Leave

  function Start(slots: nat, walkers: set<nat>): State {
    State(slots, 0, 0, 0, map w | w in walkers :: Outside, 0)
  }

  function Moved(s: State, w: nat, phase: Phase): map<nat, Phase> {
    s.walkers[w := phase]
  }

  /** What the act does when walker `w` may take it. */
  function Next(s: State, w: nat, act: Act): Option<State> {
    if w !in s.walkers then None
    else match (act, s.walkers[w])
      case (Arrive, Outside) => Some(s.(walkers := Moved(s, w, Waiting)))
      case (TakePermit, Waiting) =>
        if s.permits < s.slots then Some(s.(permits := s.permits + 1, walkers := Moved(s, w, Permitted))) else None
      case (Cancel, Waiting) => Some(s.(walkers := Moved(s, w, Cancelled)))
      case (AddOne, Permitted) =>
        var now := s.inFlight + 1;
        Some(s.(inFlight := now, walkers := Moved(s, w, Raising(now)), high := if now > s.high then now else s.high))
      case (LoadPeak, Raising(now)) => Some(s.(walkers := Moved(s, w, Comparing(now, s.peak))))
      case (CompareAndSwap, Comparing(now, seen)) =>
        if now <= seen then Some(s.(walkers := Moved(s, w, Admitted)))
        else if s.peak == seen then Some(s.(peak := now, walkers := Moved(s, w, Admitted)))
        else Some(s.(walkers := Moved(s, w, Raising(now))))
      case (SubtractOne, Admitted) => Some(s.(inFlight := s.inFlight - 1, walkers := Moved(s, w, Leaving)))
      case (ReturnPermit, Leaving) => Some(s.(permits := s.permits - 1, walkers := Moved(s, w, Outside)))
      case (Leave, Cancelled) => Some(s.(walkers := Moved(s, w, Outside)))
      case _ => None
  }

  // ----- the invariant -----

  predicate HoldsPermit(p: Phase) {
    !p.Outside? && !p.Waiting? && !p.Cancelled?
  }

  predicate Counted(p: Phase) {
    p.Raising? || p.Comparing? || p.Admitted?
  }

  /** Still on its way to recording the count it saw. */
  predicate Pending(p: Phase) {
    p.Raising? || p.Comparing?
  }

  function Holders(walkers: map<nat, Phase>): set<nat> {
    set w | w in walkers && HoldsPermit(walkers[w])
  }

  function InFlight(walkers: map<nat, Phase>): set<nat> {
    set w | w in walkers && Counted(walkers[w])
  }

  /** What a pending walker carries is no news: a count already reached, a peak already stored. */
  predicate Stale(s: State, p: Phase) {
    (Pending(p) ==> p.now <= s.high) && (p.Comparing? ==> p.seen <= s.peak)
  }

  predicate CountsRight(s: State) {
    s.permits == |Holders(s.walkers)| <= s.slots && s.inFlight == |InFlight(s.walkers)|
  }

  predicate AllStale(s: State) {
    forall w | w in s.walkers :: Stale(s, s.walkers[w])
  }

  /** The highest count is recorded, or a walker is still on its way to recording it. */
  ghost predicate PeakTracked(s: State) {
    s.peak == s.high || exists w | w in s.walkers :: Pending(s.walkers[w]) && s.walkers[w].now == s.high
  }

  ghost predicate Inv(s: State) {
    CountsRight(s) && AllStale(s) && s.inFlight <= s.high <= s.slots && s.peak <= s.high && PeakTracked(s)
  }

  lemma HoldersMoved(walkers: map<nat, Phase>, w: nat, p: Phase)
    requires w in walkers
    ensures Holders(walkers[w := p]) == if HoldsPermit(p) then Holders(walkers) + {w} else Holders(walkers) - {w}
    ensures InFlight(walkers[w := p]) == if Counted(p) then InFlight(walkers) + {w} else InFlight(walkers) - {w}
    ensures w in Holders(walkers) <==> HoldsPermit(walkers[w])
    ensures w in InFlight(walkers) <==> Counted(walkers[w])
  {
  }

  lemma InFlightHoldPermits(walkers: map<nat, Phase>)
    ensures |InFlight(walkers)| <= |Holders(walkers)|
  {
    assert InFlight(walkers) <= Holders(walkers);
    Smaller(InFlight(walkers), Holders(walkers));
  }

  lemma Smaller(a: set<nat>, b: set<nat>)
    requires a <= b
    ensures |a| <= |b|
  {
    assert b == a + (b - a);
  }

  lemma StartIsSound(slots: nat, walkers: set<nat>)
    ensures Inv(Start(slots, walkers))
  {
    assert Holders(Start(slots, walkers).walkers) == {};
    assert InFlight(Start(slots, walkers).walkers) == {};
  }

  lemma StepIsSound(s: State, w: nat, act: Act)
    requires Inv(s) && Next(s, w, act).Some?
    ensures Inv(Next(s, w, act).value)
  {
    var s' := Next(s, w, act).value;
    CountsStep(s, w, act);
    StaleStep(s, w, act);
    TrackedStep(s, w, act);
    InFlightHoldPermits(s'.walkers);
    assert Stale(s, s.walkers[w]);
    hide AllStale, PeakTracked, Holders, InFlight, Moved;
  }

  function Unit(b: bool): (r: int)
    ensures 0 <= r <= 1
  {
    if b then 1 else 0
  }

  /** Moving one walker moves each count by what that walker contributes. */
  lemma CountsMove(walkers: map<nat, Phase>, w: nat, p: Phase)
    requires w in walkers
    ensures |Holders(walkers[w := p])| == |Holders(walkers)| + Unit(HoldsPermit(p)) - Unit(HoldsPermit(walkers[w]))
    ensures |InFlight(walkers[w := p])| == |InFlight(walkers)| + Unit(Counted(p)) - Unit(Counted(walkers[w]))
  {
    HoldersMoved(walkers, w, p);
    hide Holders, InFlight, HoldsPermit, Counted, Unit;
    SizeMoves(Holders(walkers), Holders(walkers[w := p]), w, HoldsPermit(walkers[w]), HoldsPermit(p));
    SizeMoves(InFlight(walkers), InFlight(walkers[w := p]), w, Counted(walkers[w]), Counted(p));
  }

  lemma SizeMoves(a: set<nat>, b: set<nat>, w: nat, before: bool, after: bool)
    requires (w in a <==> before) && b == if after then a + {w} else a - {w}
    ensures |b| == |a| + Unit(after) - Unit(before)
  {
  }

  /** A step changes the two counters as it changes what its walker contributes. */
  lemma StepShape(s: State, w: nat, act: Act)
    requires Next(s, w, act).Some?
    ensures var s' := Next(s, w, act).value;
            && w in s.walkers && w in s'.walkers && s'.walkers == s.walkers[w := s'.walkers[w]] && s'.slots == s.slots
            && s'.permits == s.permits + Unit(HoldsPermit(s'.walkers[w])) - Unit(HoldsPermit(s.walkers[w]))
            && s'.inFlight == s.inFlight + Unit(Counted(s'.walkers[w])) - Unit(Counted(s.walkers[w]))
            && (s'.permits > s.permits ==> s.permits < s.slots)
  {
  }

  lemma CountsStep(s: State, w: nat, act: Act)
    requires CountsRight(s) && Next(s, w, act).Some?
    ensures CountsRight(Next(s, w, act).value)
  {
    hide Next, Holders, InFlight, HoldsPermit, Counted, Unit;
    StepShape(s, w, act);
    CountsMove(s.walkers, w, Next(s, w, act).value.walkers[w]);
  }

  lemma StaleStep(s: State, w: nat, act: Act)
    requires AllStale(s) && s.peak <= s.high && Next(s, w, act).Some?
    ensures AllStale(Next(s, w, act).value)
  {
    var s' := Next(s, w, act).value;
    assert Stale(s, s.walkers[w]);
    forall v | v in s'.walkers ensures Stale(s', s'.walkers[v]) {
      assert v != w ==> Stale(s, s.walkers[v]) && s'.walkers[v] == s.walkers[v];
    }
  }

  lemma TrackedStep(s: State, w: nat, act: Act)
    requires PeakTracked(s) && AllStale(s) && s.peak <= s.high && Next(s, w, act).Some?
    ensures PeakTracked(Next(s, w, act).value)
  {
    var s' := Next(s, w, act).value;
    assert Stale(s, s.walkers[w]);
    if s.peak != s.high {
      var v :| v in s.walkers && Pending(s.walkers[v]) && s.walkers[v].now == s.high;
      assert v != w ==> s'.walkers[v] == s.walkers[v];
    }
    assert w in s'.walkers;
  }

  // ----- what the gate promises -----

  /** Never more files in flight than permits held, nor more permits than slots, and the recorded peak
      never exceeds the slots. */
  lemma NeverOverAdmits(s: State)
    requires Inv(s)
    ensures 0 <= s.inFlight <= s.permits <= s.slots && s.peak <= s.slots
  {
    InFlightHoldPermits(s.walkers);
  }

  /** The peak never falls, and a compare-and-swap that loses has been overtaken by a higher peak. */
  lemma PeakOnlyRises(s: State, w: nat, act: Act)
    requires Inv(s) && Next(s, w, act).Some?
    ensures Next(s, w, act).value.peak >= s.peak
    ensures act.CompareAndSwap? && Pending(Next(s, w, act).value.walkers[w]) ==> s.walkers[w].seen < s.peak
  {
    assert Stale(s, s.walkers[w]);
  }

  datatype Move = Move(walker: nat, act: Act)

  /** The states of a run, one after each move; a move that is not enabled ends the run. */
  ghost predicate IsRun(states: seq<State>, moves: seq<Move>, slots: nat, walkers: set<nat>) {
    && |states| == |moves| + 1 && states[0] == Start(slots, walkers)
    && forall i | 0 <= i < |moves| :: Next(states[i], moves[i].walker, moves[i].act) == Some(states[i + 1])
  }

  lemma {:induction false} RunIsSound(states: seq<State>, moves: seq<Move>, slots: nat, walkers: set<nat>, i: nat)
    requires IsRun(states, moves, slots, walkers) && i < |states|
    ensures Inv(states[i]) && states[i].slots == slots
    decreases i
  {
    hide Inv;
    if i == 0 {
      StartIsSound(slots, walkers);
    } else {
      RunIsSound(states, moves, slots, walkers, i - 1);
      var m := moves[i - 1];
      assert Next(states[i - 1], m.walker, m.act) == Some(states[i]);
      StepIsSound(states[i - 1], m.walker, m.act);
    }
  }

  /** `high` is the largest in-flight count of the run so far. */
  lemma {:induction false} HighIsLargest(states: seq<State>, moves: seq<Move>, slots: nat, walkers: set<nat>, i: nat)
    requires IsRun(states, moves, slots, walkers) && i < |states|
    ensures forall j | 0 <= j <= i :: states[j].inFlight <= states[i].high
    ensures exists j | 0 <= j <= i :: states[j].inFlight == states[i].high
    decreases i
  {
    if i > 0 {
      HighIsLargest(states, moves, slots, walkers, i - 1);
      var m := moves[i - 1];
      assert Next(states[i - 1], m.walker, m.act) == Some(states[i]);
      var k :| 0 <= k <= i - 1 && states[k].inFlight == states[i - 1].high;
      assert states[i].high == states[i - 1].high || states[i].inFlight == states[i].high;
      RunIsSound(states, moves, slots, walkers, i);
    }
  }

  /** In every state of every run the gate admits no more than its slots, and whenever no walker is still
      recording, the peak is the largest number of files that were ever in flight at once. */
  lemma PeakIsExact(states: seq<State>, moves: seq<Move>, slots: nat, walkers: set<nat>, i: nat)
    requires IsRun(states, moves, slots, walkers) && i < |states|
    ensures 0 <= states[i].inFlight <= states[i].permits <= slots && states[i].peak <= slots
    ensures (forall w | w in states[i].walkers :: !Pending(states[i].walkers[w])) ==>
              && (forall j | 0 <= j <= i :: states[j].inFlight <= states[i].peak)
              && (exists j | 0 <= j <= i :: states[j].inFlight == states[i].peak)
  {
    RunIsSound(states, moves, slots, walkers, i);
    NeverOverAdmits(states[i]);
    HighIsLargest(states, moves, slots, walkers, i);
  }
}
