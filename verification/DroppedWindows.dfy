/**
 What the budget for dropped tokens can pay for. Between two literal anchors it covers every byte of the
 pattern's text that lies in a dropped span there, however the spans share the bill.
 */
module DroppedWindows {
  import opened Bytes
  import opened Outcomes
  import opened SyntaxTree
  import opened SpliceScan

  /** The span has bytes in the window (low, high). */
  predicate Reaches(s: Range, low: nat, high: nat) {
    s.end > low && s.start < high
  }

  /** The bytes left over spans reaching into the window, from the `i`-th on. */
  function Avail(spans: seq<Range>, left: seq<nat>, low: nat, high: nat, i: nat): nat
    requires |left| == |spans| && i <= |spans|
    decreases |spans| - i
  {
    if i == |spans| then 0 else (if Reaches(spans[i], low, high) then left[i] else 0) + Avail(spans, left, low, high, i + 1)
  }

  /** No span starting at `from` or later has paid anything. */
  predicate Untouched(spans: seq<Range>, left: seq<nat>, from: nat)
    requires |left| == |spans|
  {
    forall k | 0 <= k < |spans| && spans[k].start >= from :: left[k] == Widths(spans)[k]
  }

  lemma {:induction false} PayerHasMoney(spans: seq<Range>, left: seq<nat>, low: nat, high: nat, i: nat)
    requires |left| == |spans| && i <= |spans|
    ensures Payer(spans, left, low, high, i) < |spans| <==> Avail(spans, left, low, high, i) > 0
    decreases |spans| - i
  {
    if i < |spans| {
      PayerHasMoney(spans, left, low, high, i + 1);
    }
  }

  lemma {:induction false} AvailAfter(spans: seq<Range>, left: seq<nat>, low: nat, high: nat, p: nat, i: nat)
    requires |left| == |spans| && p < |spans| && i <= |spans| && left[p] > 0 && Reaches(spans[p], low, high)
    ensures Avail(spans, left[p := left[p] - 1], low, high, i) == Avail(spans, left, low, high, i) - if i <= p then 1 else 0
    decreases |spans| - i
  {
    if i < |spans| {
      AvailAfter(spans, left, low, high, p, i + 1);
    }
  }

  /** A byte is paid for exactly when the window has bytes left; then one fewer is, and no span behind the
      window has paid. */
  lemma PayableIff(spans: seq<Range>, left: seq<nat>, tok: byte, low: nat, high: nat)
    requires |left| == |spans| && !IsIdentCont(tok)
    ensures var paid := Pay(spans, left, tok, low, high);
            && (paid.Some? <==> Avail(spans, left, low, high, 0) > 0)
            && (paid.Some? ==> Avail(spans, paid.value, low, high, 0) == Avail(spans, left, low, high, 0) - 1
                               && (Untouched(spans, left, high) ==> Untouched(spans, paid.value, high)))
  {
    PayerHasMoney(spans, left, low, high, 0);
    var p := Payer(spans, left, low, high, 0);
    if p < |spans| {
      AvailAfter(spans, left, low, high, p, 0);
    }
  }

  // ----- how much a window holds -----

  predicate In(spans: seq<Range>, p: nat) {
    exists k | 0 <= k < |spans| :: spans[k].start <= p < spans[k].end
  }

  /** How many positions of [lo, hi) lie in some span from the `i`-th on. */
  function Spanned(spans: seq<Range>, lo: nat, hi: nat): nat
    requires lo <= hi
  {
    if lo == hi then 0 else Spanned(spans, lo, hi - 1) + if In(spans, hi - 1) then 1 else 0
  }

  lemma {:induction false} SpannedParts(spans: seq<Range>, lo: nat, mid: nat, hi: nat)
    requires lo <= mid <= hi
    ensures Spanned(spans, lo, hi) == Spanned(spans, lo, mid) + Spanned(spans, mid, hi)
    decreases hi
  {
    hide In;
    if mid < hi {
      SpannedParts(spans, lo, mid, hi - 1);
    }
  }

  lemma InFirstOrRest(spans: seq<Range>, p: nat)
    requires spans != []
    ensures In(spans, p) <==> spans[0].start <= p < spans[0].end || In(spans[1..], p)
  {
    if k :| 0 <= k < |spans[1..]| && spans[1..][k].start <= p < spans[1..][k].end {
      assert spans[k + 1] == spans[1..][k];
    }
    if k :| 0 < k < |spans| && spans[k].start <= p < spans[k].end {
      assert spans[1..][k - 1] == spans[k];
    }
  }

  /** The positions [lo, hi) shares with a span. */
  function Shared(s: Range, lo: nat, hi: nat): nat
    requires lo <= hi
  {
    if lo == hi then 0 else Shared(s, lo, hi - 1) + if s.start <= hi - 1 < s.end then 1 else 0
  }

  lemma {:induction false} SharedAtMost(s: Range, lo: nat, hi: nat)
    requires lo <= hi
    ensures s.start < s.end ==> Shared(s, lo, hi) <= s.end - s.start
    ensures Shared(s, lo, hi) <= if hi <= s.start then 0 else hi - s.start
    ensures !Reaches(s, lo, hi) || s.end <= s.start ==> Shared(s, lo, hi) == 0
    decreases hi
  {
    if lo < hi {
      SharedAtMost(s, lo, hi - 1);
    }
  }

  lemma {:induction false} SpannedSplits(spans: seq<Range>, lo: nat, hi: nat)
    requires lo <= hi && spans != []
    ensures Spanned(spans, lo, hi) <= Shared(spans[0], lo, hi) + Spanned(spans[1..], lo, hi)
    decreases hi
  {
    hide In;
    if lo < hi {
      SpannedSplits(spans, lo, hi - 1);
      InFirstOrRest(spans, hi - 1);
    }
  }

  lemma {:induction false} NothingSpanned(lo: nat, hi: nat)
    requires lo <= hi
    ensures Spanned([], lo, hi) == 0
    decreases hi
  {
    if lo < hi {
      NothingSpanned(lo, hi - 1);
    }
  }

  /** The whole widths of the spans reaching into the window. */
  function Wide(spans: seq<Range>, low: nat, high: nat): nat {
    if spans == [] then 0
    else (if Reaches(spans[0], low, high) && spans[0].start < spans[0].end then spans[0].end - spans[0].start else 0)
         + Wide(spans[1..], low, high)
  }

  lemma {:induction false} SpannedAtMost(spans: seq<Range>, lo: nat, hi: nat, low: nat, high: nat)
    requires low <= lo <= hi <= high
    ensures Spanned(spans, lo, hi) <= Wide(spans, low, high)
    decreases |spans|
  {
    hide Spanned;
    if spans == [] {
      NothingSpanned(lo, hi);
    } else {
      SpannedSplits(spans, lo, hi);
      SharedAtMost(spans[0], lo, hi);
      SpannedAtMost(spans[1..], lo, hi, low, high);
    }
  }

  lemma {:induction false} WidthAt(spans: seq<Range>, k: nat)
    requires k < |spans|
    ensures Widths(spans)[k] == if spans[k].end > spans[k].start then spans[k].end - spans[k].start else 0
  {
    if k > 0 {
      WidthAt(spans[1..], k - 1);
    }
  }

  /** Where the spans reaching into the window have paid nothing, all their bytes are left. */
  lemma {:induction false} AllIsLeft(spans: seq<Range>, left: seq<nat>, low: nat, high: nat, i: nat)
    requires |left| == |spans| && i <= |spans|
    requires forall k | 0 <= k < |spans| && Reaches(spans[k], low, high) :: left[k] == Widths(spans)[k]
    ensures Avail(spans, left, low, high, i) == Wide(spans[i..], low, high)
    decreases |spans| - i
  {
    if i < |spans| {
      AllIsLeft(spans, left, low, high, i + 1);
      WidthAt(spans, i);
      assert spans[i..][1..] == spans[i + 1..];
    }
  }

  /** Spans stand apart from the pattern range of a literal. */
  predicate StandClear(spans: seq<Range>, at: Range) {
    forall s | s in spans :: at.end <= s.start || s.end <= at.start
  }

  /** Behind a literal nothing has been paid yet, so the next window covers all its spanned bytes. */
  lemma NextWindowFunded(spans: seq<Range>, left: seq<nat>, at: Range, lo: nat, hi: nat, high: nat)
    requires |left| == |spans| && Untouched(spans, left, at.start) && StandClear(spans, at) && at.start <= at.end
    requires at.end <= lo <= hi <= high
    ensures Avail(spans, left, at.end, high, 0) >= Spanned(spans, lo, hi)
  {
    forall k | 0 <= k < |spans| && Reaches(spans[k], at.end, high) ensures left[k] == Widths(spans)[k] {
      assert spans[k] in spans;
    }
    AllIsLeft(spans, left, at.end, high, 0);
    assert spans[0..] == spans;
    SpannedAtMost(spans, lo, hi, at.end, high);
  }

  /** So does the first one. */
  lemma FirstWindowFunded(spans: seq<Range>, lo: nat, hi: nat, high: nat)
    requires lo <= hi <= high
    ensures Avail(spans, Widths(spans), 0, high, 0) >= Spanned(spans, lo, hi) && Untouched(spans, Widths(spans), high)
  {
    AllIsLeft(spans, Widths(spans), 0, high, 0);
    assert spans[0..] == spans;
    SpannedAtMost(spans, lo, hi, 0, high);
  }
}
