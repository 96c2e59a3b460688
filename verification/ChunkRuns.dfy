/**
 Whole runs of one credential over a backend that may fail at every step: whatever failed, a read that
 succeeds returns one value somebody stored whole.
 */
module ChunkRuns {
  import opened Bytes
  import opened ChunkStore
  import opened CredentialViews
  import opened ManifestText
  import opened Outcomes

  datatype Op = Put(value: bytes, id: Option<bytes>) | Drop | Read

  datatype Outcome = Done | Got(value: bytes) | Failed(fault: Fault)

  /** The operation completed and replaced or removed the credential. */
  predicate Settled(op: Op, out: Outcome) {
    !op.Read? && out == Done
  }

  ghost predicate NoneSettledFrom(ops: seq<Op>, outs: seq<Outcome>, from: nat)
    requires |outs| == |ops|
  {
    forall k | from <= k < |ops| :: !Settled(ops[k], outs[k])
  }

  /** `v` was stored whole by one of these operations, or was there at the start, and no operation that
      completed came after it. */
  ghost predicate StoredWhole(start: Result<bytes, Fault>, ops: seq<Op>, outs: seq<Outcome>, v: bytes)
    requires |outs| == |ops|
  {
    || (start == Ok(v) && NoneSettledFrom(ops, outs, 0))
    || (exists j | 0 <= j < |ops| :: ops[j].Put? && ops[j].value == v && NoneSettledFrom(ops, outs, j + 1))
  }

  /** The credential reads as a value stored whole, or fails to read. */
  ghost predicate Honest(start: Result<bytes, Fault>, ops: seq<Op>, outs: seq<Outcome>, now: Result<bytes, Fault>)
    requires |outs| == |ops|
  {
    now.Ok? ==> StoredWhole(start, ops, outs, now.value)
  }

  lemma HonestAfterUnsettled(start: Result<bytes, Fault>, ops: seq<Op>, outs: seq<Outcome>, op: Op, out: Outcome,
          now: Result<bytes, Fault>, later: Result<bytes, Fault>)
    requires |outs| == |ops| && Honest(start, ops, outs, now) && !Settled(op, out)
    requires later.Err? || later == now
    ensures Honest(start, ops + [op], outs + [out], later)
  {
    if later.Ok? {
      if start == Ok(later.value) && NoneSettledFrom(ops, outs, 0) {
        assert NoneSettledFrom(ops + [op], outs + [out], 0);
      } else {
        var j :| 0 <= j < |ops| && ops[j].Put? && ops[j].value == later.value && NoneSettledFrom(ops, outs, j + 1);
        assert (ops + [op])[j] == ops[j];
        assert NoneSettledFrom(ops + [op], outs + [out], j + 1);
      }
    }
  }

  lemma HonestAfterPut(start: Result<bytes, Fault>, ops: seq<Op>, outs: seq<Outcome>, op: Op, out: Outcome)
    requires |outs| == |ops| && op.Put?
    ensures Honest(start, ops + [op], outs + [out], Ok(op.value))
  {
    assert (ops + [op])[|ops|] == op;
    assert NoneSettledFrom(ops + [op], outs + [out], |ops| + 1);
  }

  /** The generations a run draws are fresh. */
  ghost predicate FreshDraws(ops: seq<Op>, issued: set<bytes>) {
    && (forall i | 0 <= i < |ops| && ops[i].Put? ::
          |ops[i].value| < 0x8000_0000_0000_0000
          && (ops[i].id.Some? ==> IsGenerationId(ops[i].id.value) && ops[i].id.value !in issued))
    && (forall i, j | 0 <= i < j < |ops| && ops[i].Put? && ops[j].Put? && ops[i].id.Some? :: ops[i].id != ops[j].id)
  }

  /** A credential written before parts existed starts a run soundly and reads as itself. */
  lemma LegacyIsSound(m: Entries, key: bytes)
    requires key in m ==> !(PREFIX <= m[key]) || ParseParts(m[key]).Err?
    requires forall id, i: nat :: PartKey(key, id, i) !in m
    ensures Sound(m, key, {}, {})
    ensures key in m && !(PREFIX <= m[key]) ==> View(m, key) == Ok(m[key])
  {
    hide PartKey;
    if ChainAt(m, key).Ok? {
      assert Addressable(m, key, ChainAt(m, key).value, {});
    }
  }

  /** One operation. */
  method Step(store: Store, key: bytes, op: Op) returns (out: Outcome)
    requires Sound(store.backend.entries, key, store.issued, store.lost)
    requires FreshDraws([op], store.issued)
    modifies store, store.backend
    ensures Sound(store.backend.entries, key, store.issued, store.lost)
    ensures store.issued == old(store.issued) + if op.Put? then IdSet(op.id) else {}
    ensures var now, was := View(store.backend.entries, key), old(View(store.backend.entries, key));
            && (out.Got? ==> op.Read? && now == Ok(out.value))
            && (op.Read? ==> now == was)
            && ((op.Put? && now == Ok(op.value)) || (!Settled(op, out) && (now.Err? || now == was)) || now.Err?)
  {
    assert [op][0] == op;
    hide Sound, View, Untouched, ParseParts, AllSee, FreshDraws, IsGenerationId, ChainAt;
    match op
    case Put(value, id) =>
      assert id.Some? ==> IsGenerationId(id.value) && id.value !in store.issued by {
        OneDraw(op, store.issued);
      }
      assert |value| < 0x8000_0000_0000_0000 by {
        OneDraw(op, store.issued);
      }
      var r;
      ghost var published;
      r, published := store.Set(key, value, id);
      out := if r.Ok? then Done else Failed(r.error);
    case Drop =>
      var r := store.Delete(key);
      out := if r.Ok? then Done else Failed(r.error);
    case Read =>
      var r := store.Get(key);
      out := if r.Ok? then Got(r.value) else Failed(r.error);
  }

  lemma OneDraw(op: Op, issued: set<bytes>)
    requires FreshDraws([op], issued) && op.Put?
    ensures |op.value| < 0x8000_0000_0000_0000
    ensures op.id.Some? ==> IsGenerationId(op.id.value) && op.id.value !in issued
  {
    assert [op][0] == op;
  }

  lemma DrawsStep(ops: seq<Op>, issued: set<bytes>)
    requires FreshDraws(ops, issued) && ops != []
    ensures FreshDraws(ops[..1], issued)
    ensures FreshDraws(ops[1..], issued + if ops[0].Put? then IdSet(ops[0].id) else {})
  {
    var rest, issued' := ops[1..], issued + if ops[0].Put? then IdSet(ops[0].id) else {};
    assert forall i | 0 <= i < |rest| :: rest[i] == ops[i + 1];
  }

  /** Any run of stores, deletions and reads, with any operation of the backend failing at any point. */
  method Run(store: Store, key: bytes, ops: seq<Op>) returns (outs: seq<Outcome>)
    requires Sound(store.backend.entries, key, store.issued, store.lost)
    requires FreshDraws(ops, store.issued)
    modifies store, store.backend
    ensures |outs| == |ops|
    ensures Sound(store.backend.entries, key, store.issued, store.lost)
    ensures forall i | 0 <= i < |ops| && outs[i].Got? ::
              StoredWhole(old(View(store.backend.entries, key)), ops[..i], outs[..i], outs[i].value)
    ensures Honest(old(View(store.backend.entries, key)), ops, outs, View(store.backend.entries, key))
  {
    ghost var start := View(store.backend.entries, key);
    outs := [];
    assert ops[0..] == ops;
    for i := 0 to |ops|
      invariant |outs| == i
      invariant Sound(store.backend.entries, key, store.issued, store.lost)
      invariant FreshDraws(ops[i..], store.issued)
      invariant forall j | 0 <= j < i && outs[j].Got? :: StoredWhole(start, ops[..j], outs[..j], outs[j].value)
      invariant Honest(start, ops[..i], outs, View(store.backend.entries, key))
    {
      hide Sound, FreshDraws, View, StoredWhole, Settled;
      ghost var was, before := View(store.backend.entries, key), outs;
      DrawsStep(ops[i..], store.issued);
      assert ops[i..][..1] == [ops[i]] && ops[i..][1..] == ops[i + 1..];
      var out := Step(store, key, ops[i]);
      ghost var now := View(store.backend.entries, key);
      outs := outs + [out];
      assert ops[..i + 1] == ops[..i] + [ops[i]];
      assert forall j | 0 <= j < i :: outs[..j] == before[..j];
      assert outs[..i] == before;
      if out.Got? {
        ReadSees(start, ops[..i], before, was, now, ops[i], out);
      }
      HonestStep(start, ops[..i], before, was, now, ops[i], out);
    }
    assert ops[..|ops|] == ops;
  }

  lemma ReadSees(start: Result<bytes, Fault>, ops: seq<Op>, outs: seq<Outcome>, was: Result<bytes, Fault>,
          now: Result<bytes, Fault>, op: Op, out: Outcome)
    requires |outs| == |ops| && Honest(start, ops, outs, was) && out.Got? && op.Read? && now == Ok(out.value) && now == was
    ensures StoredWhole(start, ops, outs, out.value)
  {
  }

  lemma HonestStep(start: Result<bytes, Fault>, ops: seq<Op>, outs: seq<Outcome>, was: Result<bytes, Fault>,
          now: Result<bytes, Fault>, op: Op, out: Outcome)
    requires |outs| == |ops| && Honest(start, ops, outs, was)
    requires (op.Put? && now == Ok(op.value)) || (!Settled(op, out) && (now.Err? || now == was)) || now.Err?
    ensures Honest(start, ops + [op], outs + [out], now)
  {
    if op.Put? && now == Ok(op.value) {
      HonestAfterPut(start, ops, outs, op, out);
    } else if !Settled(op, out) {
      HonestAfterUnsettled(start, ops, outs, op, out, was, now);
    }
  }
}
