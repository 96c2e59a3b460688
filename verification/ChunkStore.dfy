/**
 Credentials larger than one native entry. A value is cut into parts under a generation nobody used
 before, and a small manifest publishes the generation after all of its parts exist; the parts of the
 generation it replaces are removed afterwards, and a manifest keeps naming them until they are.
 */
module ChunkStore {
  import opened Bytes
  import opened CredentialViews
  import opened ManifestText
  import opened Outcomes

  /** The native credential backend. Every operation may fail, and a failing one changes nothing. */
  class Backend {
    var entries: Entries
    ghost var log: seq<Entries>
    ghost var faults: nat

    constructor ()
      ensures entries == map[] && log == [] && faults == 0
    {
      entries, log, faults := map[], [], 0;
    }

    method Get(k: bytes) returns (r: Result<bytes, Fault>)
      modifies this`faults
      ensures r.Ok? ==> k in entries && r.value == entries[k] && faults == old(faults)
      ensures r == Err(NotFound) ==> k !in entries && faults == old(faults)
      ensures r.Err? ==> r == Err(NotFound) || (r == Err(BackendFailure) && faults == old(faults) + 1)
    {
      if * {
        faults := faults + 1;
        return Err(BackendFailure);
      }
      return if k in entries then Ok(entries[k]) else Err(NotFound);
    }

    method Set(k: bytes, v: bytes) returns (ok: bool)
      requires |v| <= CHUNK
      modifies this
      ensures entries == if ok then old(entries)[k := v] else old(entries)
      ensures log == old(log) + [entries]
      ensures faults == if ok then old(faults) else old(faults) + 1
    {
      if * {
        faults := faults + 1;
        ok := false;
      } else {
        entries := entries[k := v];
        ok := true;
      }
      log := log + [entries];
    }

    method Remove(k: bytes) returns (r: Result<(), Fault>)
      modifies this
      ensures r.Ok? ==> entries == old(entries) - {k}
      ensures r == Err(NotFound) ==> k !in old(entries)
      ensures r.Err? ==> entries == old(entries) && (r == Err(NotFound) || r == Err(BackendFailure))
      ensures log == old(log) + [entries]
      ensures faults == if r == Err(BackendFailure) then old(faults) + 1 else old(faults)
    {
      if * {
        faults := faults + 1;
        r := Err(BackendFailure);
      } else if k !in entries {
        r := Err(NotFound);
      } else {
        entries := entries - {k};
        r := Ok(());
      }
      log := log + [entries];
    }
  }

  /** Every state logged from `from` up to `to` reads as `v`. */
  ghost predicate AllSee(log: seq<Entries>, from: nat, to: nat, key: bytes, v: Result<bytes, Fault>) {
    forall i | from <= i < to && i < |log| :: View(log[i], key) == v
  }

  /** Every state logged from `from` on lost at most parts of these generations. */
  ghost predicate AllRemoved(log: seq<Entries>, from: nat, m: Entries, key: bytes, ids: set<bytes>) {
    forall i | from <= i < |log| :: Removed(m, log[i], key, ids)
  }

  /** Every state logged from `from` on differs at most in parts of this generation. */
  ghost predicate AllPartsOnly(log: seq<Entries>, from: nat, m: Entries, key: bytes, ids: set<bytes>) {
    forall i | from <= i < |log| :: PartsOnly(m, log[i], key, ids)
  }

  lemma SameState(m: Entries, key: bytes, ids: set<bytes>)
    ensures Removed(m, m, key, ids)
  {
  }

  lemma RemovedOne(m: Entries, m1: Entries, m2: Entries, key: bytes, ids: set<bytes>, id: bytes, i: nat)
    requires Removed(m, m1, key, ids) && id in ids
    requires m2 == m1 || m2 == m1 - {PartKey(key, id, i)}
    ensures Removed(m, m2, key, ids)
  {
    hide PartKey;
    assert IsPart(key, ids, PartKey(key, id, i));
    forall k ensures Same(m, m2, k) || IsPart(key, ids, k) {
      assert Same(m, m1, k) || IsPart(key, ids, k);
    }
  }

  lemma RemovedStep(m: Entries, m1: Entries, m2: Entries, key: bytes, ids: set<bytes>, more: set<bytes>)
    requires Removed(m, m1, key, ids) && Removed(m1, m2, key, more) && more <= ids
    ensures Removed(m, m2, key, ids)
  {
    PartsOnlyWider(m1, m2, key, more, ids);
    PartsOnlyStep(m, m1, m2, key, ids);
  }

  /** Removes the named parts, newest generation first, carrying on after a failure. */
  method RemoveParts(backend: Backend, key: bytes, chain: seq<Generation>) returns (ok: bool)
    modifies backend
    ensures Removed(old(backend.entries), backend.entries, key, Ids(chain))
    ensures old(backend.log) <= backend.log
    ensures AllRemoved(backend.log, |old(backend.log)|, old(backend.entries), key, Ids(chain))
    ensures ok ==> forall id, i: nat | Named(chain, id, i) :: PartKey(key, id, i) !in backend.entries
    ensures if ok then backend.faults == old(backend.faults) else backend.faults > old(backend.faults)
    decreases |chain|
  {
    hide PartKey, Removed;
    ok := true;
    SameState(backend.entries, key, Ids(chain));
    if chain == [] {
      return;
    }
    var g := chain[0];
    assert g.id in Ids(chain);
    for i := 0 to g.count
      invariant Removed(old(backend.entries), backend.entries, key, Ids(chain))
      invariant old(backend.log) <= backend.log
      invariant AllRemoved(backend.log, |old(backend.log)|, old(backend.entries), key, Ids(chain))
      invariant ok ==> forall j: nat | j < i :: PartKey(key, g.id, j) !in backend.entries
      invariant if ok then backend.faults == old(backend.faults) else backend.faults > old(backend.faults)
    {
      ghost var m1 := backend.entries;
      var r := backend.Remove(PartKey(key, g.id, i));
      if r.Err? && r.error != NotFound {
        ok := false;
      }
      RemovedOne(old(backend.entries), m1, backend.entries, key, Ids(chain), g.id, i);
    }
    if |chain| > 1 {
      ghost var m1, mark := backend.entries, |backend.log|;
      var rest := RemoveParts(backend, key, chain[1..]);
      OlderIds(chain);
      forall i | mark <= i < |backend.log| ensures Removed(old(backend.entries), backend.log[i], key, Ids(chain)) {
        RemovedStep(old(backend.entries), m1, backend.log[i], key, Ids(chain), Ids(chain[1..]));
      }
      RemovedStep(old(backend.entries), m1, backend.entries, key, Ids(chain), Ids(chain[1..]));
      RemovedKeys(m1, backend.entries, key, Ids(chain[1..]));
      ok := ok && rest;
    }
    if ok {
      assert chain == [g] + chain[1..];
      forall id, i: nat | Named(chain, id, i) ensures PartKey(key, id, i) !in backend.entries {
        NamedSplits(g, chain[1..], id, i);
      }
    }
  }

  lemma RemovedKeys(m: Entries, m': Entries, key: bytes, ids: set<bytes>)
    requires Removed(m, m', key, ids)
    ensures m'.Keys <= m.Keys
  {
  }

  lemma OlderIds(chain: seq<Generation>)
    requires chain != []
    ensures Ids(chain[1..]) <= Ids(chain)
  {
    forall id | id in Ids(chain[1..]) ensures id in Ids(chain) {
      var i :| 0 <= i < |chain[1..]| && chain[1..][i].id == id;
      assert chain[i + 1].id == id;
    }
  }

  // ----- writing parts -----

  function PartCount(length: nat): (n: nat)
    ensures n >= 1 && n * CHUNK >= length
  {
    var n := (length + CHUNK - 1) / CHUNK;
    if n < 1 then 1 else n
  }

  function CutAt(i: nat, length: nat): nat {
    if i * CHUNK < length then i * CHUNK else length
  }

  lemma PieceBounds(length: nat, i: nat)
    requires i < PartCount(length)
    ensures CutAt(i, length) == i * CHUNK <= CutAt(i + 1, length) <= CutAt(i, length) + CHUNK
  {
  }

  lemma CountFits(length: nat)
    requires length < 0x8000_0000_0000_0000
    ensures PartCount(length) < 10_000_000_000_000_000
  {
  }

  lemma {:induction false} GatherBelow(m: Entries, k: bytes, v: bytes, key: bytes, id: bytes, n: nat)
    requires forall j: nat | j < n :: PartKey(key, id, j) != k
    ensures Gather(m[k := v], key, id, n) == Gather(m, key, id, n)
  {
    if n > 0 {
      GatherBelow(m, k, v, key, id, n - 1);
    }
  }

  /** Writing the next part. */
  lemma PartWritten(m: Entries, key: bytes, id: bytes, i: nat, piece: bytes, sofar: bytes)
    requires UrlSafe(id) && Gather(m, key, id, i) == Some(sofar)
    requires forall j: nat :: PartKey(key, id, j) in m ==> j < i
    ensures Gather(m[PartKey(key, id, i) := piece], key, id, i + 1) == Some(sofar + piece)
    ensures forall j: nat :: PartKey(key, id, j) in m[PartKey(key, id, i) := piece] ==> j < i + 1
  {
    var k := PartKey(key, id, i);
    forall j: nat ensures PartKey(key, id, j) == k ==> j == i {
      if PartKey(key, id, j) == k {
        PartKeyInjective(key, id, j, key, id, i);
      }
    }
    hide PartKey;
    GatherBelow(m, k, piece, key, id, i);
  }

  lemma PartAdded(m: Entries, m1: Entries, key: bytes, id: bytes, i: nat, piece: bytes)
    requires PartsOnly(m, m1, key, {id})
    ensures PartsOnly(m, m1[PartKey(key, id, i) := piece], key, {id})
  {
    hide PartKey;
    var m2 := m1[PartKey(key, id, i) := piece];
    assert IsPart(key, {id}, PartKey(key, id, i));
    forall k ensures Same(m, m2, k) || IsPart(key, {id}, k) {
      assert Same(m, m1, k) || IsPart(key, {id}, k);
    }
  }

  /** What writing the parts of one generation left in the backend. */
  ghost predicate Written(m: Entries, m': Entries, key: bytes, id: bytes, n: nat) {
    PartsOnly(m, m', key, {id}) && forall j: nat :: PartKey(key, id, j) in m' ==> j < n
  }

  /** Writes the parts of a value; on a failed write, removes what was written. */
  method WriteParts(backend: Backend, key: bytes, value: bytes, g: Generation) returns (ok: bool, ghost clean: bool)
    requires IsGeneration(g) && g.count == PartCount(|value|)
    requires forall j: nat :: PartKey(key, g.id, j) !in backend.entries
    modifies backend
    ensures Written(old(backend.entries), backend.entries, key, g.id, g.count)
    ensures old(backend.log) <= backend.log
    ensures AllPartsOnly(backend.log, |old(backend.log)|, old(backend.entries), key, {g.id})
    ensures ok ==> Gather(backend.entries, key, g.id, g.count) == Some(value)
    ensures if ok then backend.faults == old(backend.faults) else backend.faults > old(backend.faults)
    ensures !ok && clean ==> forall j: nat :: PartKey(key, g.id, j) !in backend.entries
    ensures !ok && !clean ==> backend.faults >= old(backend.faults) + 2
  {
    ghost var m0 := backend.entries;
    clean := true;
    for i := 0 to g.count
      invariant Written(m0, backend.entries, key, g.id, i)
      invariant old(backend.log) <= backend.log
      invariant AllPartsOnly(backend.log, |old(backend.log)|, m0, key, {g.id})
      invariant Gather(backend.entries, key, g.id, i) == Some(value[..CutAt(i, |value|)])
      invariant backend.faults == old(backend.faults)
    {
      hide PartKey, PartsOnly, Gather, PartCount, Removed;
      PieceBounds(|value|, i);
      ghost var m1 := backend.entries;
      var piece := value[i * CHUNK..CutAt(i + 1, |value|)];
      var wrote := backend.Set(PartKey(key, g.id, i), piece);
      if !wrote {
        clean := Abort(backend, key, g, m0, i);
        return false, clean;
      }
      PartAdded(m0, m1, key, g.id, i, piece);
      PartWritten(m1, key, g.id, i, piece, value[..CutAt(i, |value|)]);
      assert value[..CutAt(i, |value|)] + piece == value[..CutAt(i + 1, |value|)];
    }
    assert value[..|value|] == value;
    return true, clean;
  }

  /** Removes the parts of a generation that will not be published. */
  method Abort(backend: Backend, key: bytes, g: Generation, ghost m0: Entries, ghost written: nat) returns (ok: bool)
    requires Written(m0, backend.entries, key, g.id, written) && written <= g.count
    modifies backend
    ensures Written(m0, backend.entries, key, g.id, written)
    ensures old(backend.log) <= backend.log
    ensures AllPartsOnly(backend.log, |old(backend.log)|, m0, key, {g.id})
    ensures ok ==> forall j: nat :: PartKey(key, g.id, j) !in backend.entries
    ensures if ok then backend.faults == old(backend.faults) else backend.faults > old(backend.faults)
  {
    hide PartKey, PartsOnly;
    ghost var m1 := backend.entries;
    ok := RemoveParts(backend, key, [g]);
    assert Ids([g]) == {g.id} by {
      assert [g][0].id == g.id;
    }
    forall i | |old(backend.log)| <= i < |backend.log| ensures PartsOnly(m0, backend.log[i], key, {g.id}) {
      assert Removed(m1, backend.log[i], key, Ids([g]));
      PartsOnlyStep(m0, m1, backend.log[i], key, {g.id});
    }
    PartsOnlyStep(m0, m1, backend.entries, key, {g.id});
    if ok {
      forall j: nat ensures PartKey(key, g.id, j) !in backend.entries {
        if j < g.count {
          assert [g][0] == g;
          assert Named([g], g.id, j);
        }
      }
    }
  }

  /** What a Set means to publish: the parts' own generation in front of the chain it replaces, or a
      plain value. */
  datatype Prepared = Plain(text: bytes) | Parts(g: Generation, text: bytes)

  ghost predicate ReadyToPublish(p: Prepared, m: Entries, key: bytes, value: bytes, previous: seq<Generation>,
          id: Option<bytes>) {
    match p
    case Plain(text) => text == value && previous == [] && |text| <= CHUNK && !(PREFIX <= text)
    case Parts(g, text) =>
      && id == Some(g.id) && IsGeneration(g) && |previous| < 8
      && text == Manifest([g] + previous) && |text| <= CHUNK
      && Gather(m, key, g.id, g.count) == Some(value)
      && forall j: nat :: PartKey(key, g.id, j) in m ==> j < g.count
  }

  function IdSet(id: Option<bytes>): set<bytes> {
    if id.Some? then {id.value} else {}
  }

  /** Refuses a backlog of eight generations, leaves small plain values to their own entry, and writes
      everything else as parts of a fresh generation. */
  method PrepareParts(backend: Backend, key: bytes, value: bytes, previous: seq<Generation>, id: Option<bytes>)
    returns (r: Result<Prepared, Fault>, ghost clean: bool)
    requires IsChain(previous) && |value| < 0x8000_0000_0000_0000
    requires id.Some? ==> IsGenerationId(id.value) && forall j: nat :: PartKey(key, id.value, j) !in backend.entries
    modifies backend
    ensures PartsOnly(old(backend.entries), backend.entries, key, IdSet(id))
    ensures old(backend.log) <= backend.log
    ensures AllPartsOnly(backend.log, |old(backend.log)|, old(backend.entries), key, IdSet(id))
    ensures r.Ok? ==> ReadyToPublish(r.value, backend.entries, key, value, previous, id) && backend.faults == old(backend.faults)
    ensures (r.Ok? && r.value.Plain?) || id.None? ==> backend.entries == old(backend.entries) && backend.log == old(backend.log)
    ensures r.Err? && clean && id.Some? ==> forall j: nat :: PartKey(key, id.value, j) !in backend.entries
    ensures r.Err? && !clean ==> id.Some? && backend.faults >= old(backend.faults) + 2
    ensures r == Err(BacklogFull) <==> |previous| >= 8
    ensures r.Err? ==> |previous| >= 8 || id.None? || backend.faults > old(backend.faults)
  {
    hide PartKey, Gather, Manifest;
    SameState(backend.entries, key, IdSet(id));
    clean := true;
    var depth, retained := 0, previous;
    assert forall k | 0 <= k < |previous| :: IsGeneration(previous[k]);
    while retained != [] && retained[0].count > 0
      invariant depth + |retained| == |previous| && depth < 8
      invariant forall k | 0 <= k < |retained| :: retained[k].count > 0
      decreases |retained|
    {
      hide *;
      depth := depth + 1;
      if depth >= 8 {
        return Err(BacklogFull), clean;
      }
      retained := retained[1..];
    }
    if |value| <= CHUNK && !(PREFIX <= value) && previous == [] {
      return Ok(Plain(value)), clean;
    }
    if id.None? {
      return Err(NoRandomness), clean;
    }
    CountFits(|value|);
    var g := Generation(id.value, PartCount(|value|));
    var ok: bool;
    ok, clean := WriteParts(backend, key, value, g);
    if !ok {
      return Err(BackendFailure), clean;
    }
    var chain := [g] + previous;
    ManifestFits(chain);
    return Ok(Parts(g, Manifest(chain))), clean;
  }

  // ----- the store -----

  lemma AllSeeKept(log: seq<Entries>, from: nat, m: Entries, key: bytes, ids: set<bytes>)
    requires AllPartsOnly(log, from, m, key, ids) && AllUrlSafe(ids)
    requires ChainAt(m, key).Ok? && ChainAt(m, key).value != [] ==>
               UrlSafe(ChainAt(m, key).value[0].id) && ChainAt(m, key).value[0].id !in ids
    ensures AllSee(log, from, |log|, key, View(m, key))
  {
    hide View, PartsOnly;
    forall i | from <= i < |log| ensures View(log[i], key) == View(m, key) {
      ViewKept(m, log[i], key, ids);
    }
  }

  /** Publishing a generation whose parts are all there makes the credential read as their value. */
  lemma PublishedView(m: Entries, key: bytes, g: Generation, chain: seq<Generation>, text: bytes, value: bytes)
    requires UrlSafe(g.id) && Gather(m, key, g.id, g.count) == Some(value)
    requires chain != [] && chain[0] == g && ParseParts(text) == Ok(chain)
    ensures View(m[key := text], key) == Ok(value)
  {
    forall j: nat ensures PartKey(key, g.id, j) != key {
      PartKeyIsLonger(key, g.id, j);
    }
    GatherBelow(m, key, text, key, g.id, g.count);
  }

  lemma SeenSame(log: seq<Entries>, log': seq<Entries>, from: nat, to: nat, key: bytes, v: Result<bytes, Fault>)
    requires log <= log' && AllSee(log, from, to, key, v) && to <= |log|
    ensures AllSee(log', from, to, key, v)
  {
    hide View;
    assert forall i | 0 <= i < |log| :: log'[i] == log[i];
  }

  /** Everything a Set or a Delete may have done to the rest of the backend. */
  lemma UntouchedParts(m: Entries, m': Entries, key: bytes, ids: set<bytes>, issued: set<bytes>)
    requires PartsOnly(m, m', key, ids) && ids <= issued
    ensures Untouched(m, m', key, issued)
  {
    PartsOnlyWider(m, m', key, ids, issued);
  }

  lemma UntouchedStep(m: Entries, m1: Entries, m2: Entries, key: bytes, issued: set<bytes>)
    requires Untouched(m, m1, key, issued) && Untouched(m1, m2, key, issued)
    ensures Untouched(m, m2, key, issued)
  {
    hide IsPart;
    forall k | k != key ensures Same(m, m2, k) || IsPart(key, issued, k) {
      assert Same(m, m1, k) || IsPart(key, issued, k);
      assert Same(m1, m2, k) || IsPart(key, issued, k);
    }
  }

  /** The state a Set starts its publishing from. */
  ghost predicate Publishing(m0: Entries, m: Entries, key: bytes, issued: set<bytes>, lost: set<bytes>, g: Generation,
          previous: seq<Generation>, text: bytes, value: bytes) {
    && Sound(m0, key, issued, lost) && ChainAt(m0, key) == Ok(previous) && |previous| < 8
    && PartsOnly(m0, m, key, {g.id}) && IsGeneration(g) && g.id !in issued
    && text == Manifest([g] + previous)
    && Gather(m, key, g.id, g.count) == Some(value)
    && forall j: nat :: PartKey(key, g.id, j) in m ==> j < g.count
  }

  lemma Published(m0: Entries, m: Entries, key: bytes, issued: set<bytes>, lost: set<bytes>, g: Generation,
          previous: seq<Generation>, text: bytes, value: bytes)
    requires Publishing(m0, m, key, issued, lost, g, previous, text, value)
    ensures var m1 := m[key := text];
            && View(m1, key) == Ok(value) && ChainAt(m1, key) == Ok([g] + previous)
            && Sound(m1, key, issued + {g.id}, lost)
            && g.id !in Ids(previous)
  {
    hide PartKey, Manifest, PartsOnly, Gather;
    ChainGrows(g, previous, issued);
    ManifestReadsBack([g] + previous);
    PublishedView(m, key, g, [g] + previous, text, value);
    SoundPublished(m0, m, key, issued, lost, g, text);
  }

  lemma {:induction false} MissingPart(m: Entries, key: bytes, id: bytes, i: nat, n: nat)
    requires i < n && PartKey(key, id, i) !in m
    ensures Gather(m, key, id, n).None?
    decreases n
  {
    if i < n - 1 {
      MissingPart(m, key, id, i, n - 1);
    }
  }

  /** The credential reads as it did up to one point, and as the new value from there on. */
  ghost predicate Switches(m0: Entries, m: Entries, log: seq<Entries>, start: nat, published: nat, key: bytes,
          value: bytes) {
    && start <= published <= |log|
    && AllSee(log, start, published, key, View(m0, key))
    && AllSee(log, published, |log|, key, Ok(value))
    && View(m, key) == if published < |log| then Ok(value) else View(m0, key)
  }

  lemma NotSwitched(m0: Entries, m: Entries, log: seq<Entries>, start: nat, key: bytes, value: bytes, ids: set<bytes>)
    requires start <= |log| && AllPartsOnly(log, start, m0, key, ids) && PartsOnly(m0, m, key, ids) && AllUrlSafe(ids)
    requires ChainAt(m0, key).Ok? && ChainAt(m0, key).value != [] ==>
               UrlSafe(ChainAt(m0, key).value[0].id) && ChainAt(m0, key).value[0].id !in ids
    ensures Switches(m0, m, log, start, |log|, key, value)
  {
    hide PartsOnly, View;
    AllSeeKept(log, start, m0, key, ids);
    ViewKept(m0, m, key, ids);
  }

  lemma SwitchedNow(m0: Entries, m: Entries, log: seq<Entries>, start: nat, key: bytes, value: bytes)
    requires start < |log| && log[|log| - 1] == m && View(m, key) == Ok(value)
    requires Switches(m0, m0, log[..|log| - 1], start, |log| - 1, key, value)
    ensures Switches(m0, m, log, start, |log| - 1, key, value)
  {
    hide View;
    SeenSame(log[..|log| - 1], log, start, |log| - 1, key, View(m0, key));
  }

  lemma SwitchedStill(m0: Entries, m: Entries, m': Entries, log: seq<Entries>, log': seq<Entries>, start: nat,
          published: nat, key: bytes, value: bytes)
    requires Switches(m0, m, log, start, published, key, value) && published < |log| && log <= log'
    requires AllSee(log', |log|, |log'|, key, Ok(value)) && View(m', key) == Ok(value)
    ensures Switches(m0, m', log', start, published, key, value)
  {
    hide View;
    SeenSame(log, log', start, published, key, View(m0, key));
    SeenSame(log, log', published, |log|, key, Ok(value));
  }

  // ----- the steps of publishing -----

  lemma AbandonPublishing(m0: Entries, m1: Entries, key: bytes, before: set<bytes>, lost: set<bytes>, g: Generation,
          previous: seq<Generation>, text: bytes, value: bytes)
    requires Publishing(m0, m1, key, before, lost, g, previous, text, value)
    ensures Written(m0, m1, key, g.id, g.count)
  {
    hide PartKey, PartsOnly;
  }

  lemma HeadNotFresh(m0: Entries, m1: Entries, key: bytes, before: set<bytes>, lost: set<bytes>, g: Generation,
          previous: seq<Generation>, text: bytes, value: bytes)
    requires Publishing(m0, m1, key, before, lost, g, previous, text, value)
    ensures previous != [] ==> UrlSafe(previous[0].id) && previous[0].id != g.id
    ensures UrlSafe(g.id) && AllUrlSafe({g.id}) && AllUrlSafe(before + {g.id})
  {
    hide PartKey, PartsOnly, Gather, Manifest;
    if previous != [] {
      assert IsGeneration(previous[0]);
      assert previous[0].id in Ids(previous);
    }
  }

  lemma PriorSwitches(m0: Entries, m1: Entries, log: seq<Entries>, start: nat, key: bytes, before: set<bytes>,
          lost: set<bytes>,
          g: Generation, previous: seq<Generation>, text: bytes, value: bytes)
    requires Publishing(m0, m1, key, before, lost, g, previous, text, value)
    requires start <= |log| && AllPartsOnly(log, start, m0, key, {g.id})
    ensures Switches(m0, m0, log, start, |log|, key, value)
  {
    HeadNotFresh(m0, m1, key, before, lost, g, previous, text, value);
    hide PartKey, Gather, Manifest, Switches, AllUrlSafe;
    SameState(m0, key, {g.id});
    NotSwitched(m0, m0, log, start, key, value, {g.id});
  }

  lemma StillUnpublished(m0: Entries, m: Entries, log0: seq<Entries>, m1: Entries, log: seq<Entries>, start: nat,
          key: bytes,
          before: set<bytes>, lost: set<bytes>, g: Generation, previous: seq<Generation>, text: bytes,
          value: bytes, clean: bool)
    requires Publishing(m0, m1, key, before, lost, g, previous, text, value)
    requires start <= |log0| && AllPartsOnly(log0, start, m0, key, {g.id})
    requires log0 + [m1] <= log && AllPartsOnly(log, |log0| + 1, m0, key, {g.id})
    requires Written(m0, m, key, g.id, g.count)
    requires clean ==> forall j: nat :: PartKey(key, g.id, j) !in m
    ensures Switches(m0, m, log, start, |log|, key, value)
    ensures Sound(m, key, before + {g.id}, if clean then lost else lost + {g.id})
    ensures Untouched(m0, m, key, before + {g.id})
  {
    HeadNotFresh(m0, m1, key, before, lost, g, previous, text, value);
    hide PartKey, Gather, Manifest, Switches, AllUrlSafe, Sound, PartsOnly, Untouched;
    forall i | start <= i < |log| ensures PartsOnly(m0, log[i], key, {g.id}) {
      if i < |log0| {
        assert log[i] == log0[i];
      } else if i == |log0| {
        assert log[i] == (log0 + [m1])[i];
      }
    }
    NotSwitched(m0, m, log, start, key, value, {g.id});
    SoundAborted(m0, m, key, before, lost, g, clean);
    UntouchedParts(m0, m, key, {g.id}, before + {g.id});
  }

  lemma JustPublished(m0: Entries, m1: Entries, log: seq<Entries>, log2: seq<Entries>, start: nat, key: bytes,
          before: set<bytes>,
          lost: set<bytes>, g: Generation, previous: seq<Generation>, text: bytes, value: bytes)
    requires Publishing(m0, m1, key, before, lost, g, previous, text, value)
    requires start <= |log| && AllPartsOnly(log, start, m0, key, {g.id})
    requires log2 == log + [m1[key := text]]
    ensures After(m0, m1[key := text], log2, start, |log2| - 1, key, before + {g.id}, lost, g, previous, value)
    ensures IsChain(previous)
  {
    HeadNotFresh(m0, m1, key, before, lost, g, previous, text, value);
    PriorSwitches(m0, m1, log, start, key, before, lost, g, previous, text, value);
    hide PartKey, Gather, Manifest, Switches, AllUrlSafe, PartsOnly, Untouched, View;
    Published(m0, m1, key, before, lost, g, previous, text, value);
    hide Sound;
    var m2 := m1[key := text];
    assert log2[..|log2| - 1] == log;
    SwitchedNow(m0, m2, log2, start, key, value);
    UntouchedParts(m0, m1, key, {g.id}, before + {g.id});
    UntouchedPut(m1, key, text, before + {g.id});
    UntouchedStep(m0, m1, m2, key, before + {g.id});
  }

  lemma UntouchedPut(m: Entries, key: bytes, text: bytes, issued: set<bytes>)
    ensures Untouched(m, m[key := text], key, issued)
  {
  }

  /** A state after the publishing write: the new value reads back and every part is addressable. */
  ghost predicate After(m0: Entries, m: Entries, log: seq<Entries>, start: nat, published: nat, key: bytes,
          issued: set<bytes>,
          lost: set<bytes>, g: Generation, previous: seq<Generation>, value: bytes) {
    && Switches(m0, m, log, start, published, key, value) && published < |log|
    && Sound(m, key, issued, lost) && Untouched(m0, m, key, issued)
    && ChainAt(m, key) == Ok([g] + previous) && g.id !in Ids(previous) && g.id in issued
  }

  lemma OlderRemoved(m0: Entries, m2: Entries, m3: Entries, log2: seq<Entries>, log: seq<Entries>, start: nat,
          published: nat,
          key: bytes, issued: set<bytes>, lost: set<bytes>, g: Generation, previous: seq<Generation>, value: bytes)
    requires After(m0, m2, log2, start, published, key, issued, lost, g, previous, value)
    requires log2 <= log && AllRemoved(log, |log2|, m2, key, Ids(previous)) && Removed(m2, m3, key, Ids(previous))
    ensures After(m0, m3, log, start, published, key, issued, lost, g, previous, value)
  {
    assert Ids(previous) <= Ids([g] + previous) && ([g] + previous)[0] == g by {
      assert ([g] + previous)[1..] == previous;
      OlderIds([g] + previous);
    }
    assert AllUrlSafe(Ids(previous)) && UrlSafe(g.id) && Ids(previous) <= issued;
    SoundRemoved(m2, m3, key, Ids(previous), issued, lost);
    hide PartKey, Gather, View, AllUrlSafe, PartsOnly, Sound, Untouched, Ids;
    KeyKept(m2, m3, key, Ids(previous));
    ViewKept(m2, m3, key, Ids(previous));
    forall i | |log2| <= i < |log| ensures View(log[i], key) == Ok(value) {
      assert Removed(m2, log[i], key, Ids(previous));
      ViewKept(m2, log[i], key, Ids(previous));
    }
    SwitchedStill(m0, m2, m3, log2, log, start, published, key, value);
    UntouchedParts(m2, m3, key, Ids(previous), issued);
    UntouchedStep(m0, m2, m3, key, issued);
  }

  lemma FitsAlone(g: Generation, m: Entries, key: bytes, issued: set<bytes>, lost: set<bytes>,
          previous: seq<Generation>)
    requires Sound(m, key, issued, lost) && ChainAt(m, key) == Ok([g] + previous)
    ensures IsGeneration(g) && |Manifest([g])| <= CHUNK && ParseParts(Manifest([g])) == Ok([g])
  {
    hide PartKey, Manifest, ParseParts;
    assert ([g] + previous)[0] == g;
    ManifestFits([g]);
    ManifestReadsBack([g]);
  }

  lemma Shrunk(m0: Entries, m3: Entries, m4: Entries, log3: seq<Entries>, log: seq<Entries>, start: nat, published: nat,
          key: bytes, issued: set<bytes>, lost: set<bytes>, g: Generation, previous: seq<Generation>, value: bytes, ok: bool)
    requires After(m0, m3, log3, start, published, key, issued, lost, g, previous, value)
    requires forall id, i: nat | Named(previous, id, i) :: PartKey(key, id, i) !in m3
    requires m4 == if ok then m3[key := Manifest([g])] else m3
    requires log == log3 + [m4]
    ensures After(m0, m4, log, start, published, key, issued, lost, g, if ok then [] else previous, value)
  {
    var text := Manifest([g]);
    FitsAlone(g, m3, key, issued, lost, previous);
    hide Manifest;
    if ok {
      SoundShrunk(m3, key, issued, lost, g, previous, text);
      assert Gather(m3, key, g.id, g.count) == Some(value) by {
        assert ([g] + previous)[0] == g;
        assert View(m3, key) == Ok(value);
      }
      PublishedView(m3, key, g, [g], text, value);
      UntouchedPut(m3, key, text, issued);
      assert [g] + [] == [g];
    } else {
      SameState(m3, key, {});
      UntouchedParts(m3, m3, key, {}, issued);
    }
    hide PartKey, Gather, View, PartsOnly, Sound, Untouched, ParseParts;
    UntouchedStep(m0, m3, m4, key, issued);
    assert log[|log3|] == m4;
    SwitchedStill(m0, m3, m4, log3, log, start, published, key, value);
  }

  // ----- the other ways a Set ends -----

  lemma NothingYet(m: Entries, log: seq<Entries>, key: bytes, value: bytes, issued: set<bytes>, lost: set<bytes>,
          id: Option<bytes>)
    requires Sound(m, key, issued, lost) && (id.Some? ==> UrlSafe(id.value))
    ensures Switches(m, m, log, |log|, |log|, key, value)
    ensures Sound(m, key, issued + IdSet(id), lost) && Untouched(m, m, key, issued + IdSet(id))
  {
    if id.Some? {
      SoundIssues(m, key, issued, lost, id.value);
    } else {
      assert issued + {} == issued;
    }
  }

  lemma SoundChain(m: Entries, key: bytes, issued: set<bytes>, lost: set<bytes>)
    requires Sound(m, key, issued, lost) && ChainAt(m, key).Ok?
    ensures IsChain(ChainAt(m, key).value) && |ChainAt(m, key).value| <= 8
  {
    hide Addressable;
  }

  lemma FreshId(m: Entries, key: bytes, issued: set<bytes>, lost: set<bytes>, id: Option<bytes>)
    requires Sound(m, key, issued, lost) && ChainAt(m, key).Ok?
    requires id.Some? ==> UrlSafe(id.value) && id.value !in issued
    ensures id.Some? ==> forall j: nat :: PartKey(key, id.value, j) !in m
  {
    if id.Some? {
      FreshHasNoParts(m, key, issued, lost, id.value);
    }
  }

  lemma HeadIsIssued(m: Entries, key: bytes, issued: set<bytes>, lost: set<bytes>)
    requires Sound(m, key, issued, lost) && ChainAt(m, key).Ok? && ChainAt(m, key).value != []
    ensures UrlSafe(ChainAt(m, key).value[0].id) && ChainAt(m, key).value[0].id in issued
  {
    hide Addressable;
    var chain := ChainAt(m, key).value;
    assert IsGeneration(chain[0]) && chain[0].id in Ids(chain);
  }

  lemma PrepareFailed(m0: Entries, m: Entries, log0: seq<Entries>, log: seq<Entries>, key: bytes, value: bytes,
          issued: set<bytes>, lost: set<bytes>, id: Option<bytes>, clean: bool)
    requires Sound(m0, key, issued, lost) && ChainAt(m0, key).Ok? && (id.Some? ==> UrlSafe(id.value) && id.value !in issued)
    requires PartsOnly(m0, m, key, IdSet(id)) && log0 <= log && AllPartsOnly(log, |log0|, m0, key, IdSet(id))
    requires id.None? ==> m == m0 && clean
    requires clean && id.Some? ==> forall j: nat :: PartKey(key, id.value, j) !in m
    ensures Switches(m0, m, log, |log0|, |log|, key, value)
    ensures Sound(m, key, issued + IdSet(id), if clean then lost else lost + IdSet(id))
    ensures Untouched(m0, m, key, issued + IdSet(id))
  {
    hide PartKey, PartsOnly, Addressable;
    if ChainAt(m0, key).value != [] {
      HeadIsIssued(m0, key, issued, lost);
    }
    NotSwitched(m0, m, log, |log0|, key, value, IdSet(id));
    UntouchedParts(m0, m, key, IdSet(id), issued + IdSet(id));
    if id.Some? {
      SoundAborted(m0, m, key, issued, lost, Generation(id.value, 0), clean);
    } else {
      assert issued + {} == issued;
    }
  }

  lemma PlainStored(m0: Entries, m: Entries, log0: seq<Entries>, log: seq<Entries>, key: bytes, value: bytes,
          issued: set<bytes>, lost: set<bytes>, ok: bool)
    requires Sound(m0, key, issued, lost) && ChainAt(m0, key) == Ok([]) && !(PREFIX <= value)
    requires m == (if ok then m0[key := value] else m0) && log == log0 + [m]
    ensures Switches(m0, m, log, |log0|, if ok then |log0| else |log|, key, value)
    ensures Sound(m, key, issued, lost) && Untouched(m0, m, key, issued)
    ensures ChainAt(m, key) == Ok([])
  {
    if ok {
      SoundPlain(m0, key, issued, lost, value);
      assert ParseParts(value) == Ok([]);
      assert View(m, key) == Ok(value);
      UntouchedPut(m0, key, value, issued);
    } else {
      SameState(m0, key, {});
      NotSwitched(m0, m0, log, |log0|, key, value, {});
      UntouchedParts(m0, m0, key, {}, issued);
    }
  }

  // ----- the steps of deleting -----

  /** The credential reads as before, or as unavailable. */
  ghost predicate OnlyFades(m0: Entries, m: Entries, key: bytes) {
    View(m, key) == View(m0, key) || View(m, key) == Err(PartUnavailable)
  }

  lemma StillThere(m: Entries, key: bytes, issued: set<bytes>)
    ensures Untouched(m, m, key, issued) && OnlyFades(m, m, key)
  {
  }

  lemma PartsRemoved(m0: Entries, m: Entries, log0: seq<Entries>, log: seq<Entries>, key: bytes, issued: set<bytes>,
          lost: set<bytes>, chain: seq<Generation>)
    requires Sound(m0, key, issued, lost) && ChainAt(m0, key) == Ok(chain)
    requires Removed(m0, m, key, Ids(chain)) && log0 <= log && AllRemoved(log, |log0|, m0, key, Ids(chain))
    ensures Sound(m, key, issued, lost) && Untouched(m0, m, key, issued)
    ensures Same(m0, m, key) && ChainAt(m, key) == Ok(chain)
    ensures OnlyFades(m0, m, key) && forall i | |log0| <= i < |log| :: OnlyFades(m0, log[i], key)
  {
    hide ParseParts, PartKey, View;
    KeyKept(m0, m, key, Ids(chain));
    SoundRemoved(m0, m, key, Ids(chain), issued, lost);
    ViewLost(m0, m, key, Ids(chain));
    UntouchedParts(m0, m, key, Ids(chain), issued);
    forall i | |log0| <= i < |log| ensures OnlyFades(m0, log[i], key) {
      ViewLost(m0, log[i], key, Ids(chain));
    }
  }

  lemma EntryRemoved(m0: Entries, m1: Entries, key: bytes, issued: set<bytes>, lost: set<bytes>)
    requires Sound(m1, key, issued, lost) && ChainAt(m1, key).Ok? && Untouched(m0, m1, key, issued)
    requires forall id, i: nat | Named(ChainAt(m1, key).value, id, i) :: PartKey(key, id, i) !in m1
    ensures var m := m1 - {key};
            && Sound(m, key, issued, lost) && Untouched(m0, m, key, issued) && View(m, key) == Err(NotFound)
            && forall id, i: nat :: UrlSafe(id) && PartKey(key, id, i) in m ==> id in lost
  {
    hide PartKey, ParseParts;
    SoundDeleted(m1, key, issued, lost);
    hide Sound;
    forall k | k != key ensures Same(m0, m1 - {key}, k) || IsPart(key, issued, k) {
      assert Same(m0, m1, k) || IsPart(key, issued, k);
    }
  }

  class Store {
    const backend: Backend
    ghost var issued: set<bytes>
    ghost var lost: set<bytes>

    constructor (b: Backend)
      ensures backend == b && issued == {} && lost == {}
    {
      backend, issued, lost := b, {}, {};
    }

    /** Reads the credential whole, or fails. */
    method Get(key: bytes) returns (r: Result<bytes, Fault>)
      modifies backend`faults
      ensures r.Ok? ==> r == View(backend.entries, key)
      ensures backend.faults == old(backend.faults) ==> r == View(backend.entries, key)
      ensures backend.faults >= old(backend.faults)
    {
      hide ParseParts, PartKey;
      var entry := backend.Get(key);
      if entry.Err? {
        return Err(entry.error);
      }
      var parsed := ParseParts(entry.value);
      if parsed.Err? {
        return Err(Invalid);
      }
      if parsed.value == [] {
        return Ok(entry.value);
      }
      var g := parsed.value[0];
      var joined: bytes := [];
      for i := 0 to g.count
        invariant Gather(backend.entries, key, g.id, i) == Some(joined)
        invariant backend.faults == old(backend.faults)
      {
        var part := backend.Get(PartKey(key, g.id, i));
        if part.Err? {
          if part.error == NotFound {
            MissingPart(backend.entries, key, g.id, i, g.count);
          }
          return Err(PartUnavailable);
        }
        joined := joined + part.value;
      }
      return Ok(joined);
    }

    /** Publishes a generation whose parts are all written, then removes what it replaces. */
    method Publish(key: bytes, value: bytes, previous: seq<Generation>, g: Generation, text: bytes,
            ghost m0: Entries, ghost start: nat, ghost before: set<bytes>)
      returns (r: Result<(), Fault>, ghost published: nat)
      requires Publishing(m0, backend.entries, key, before, lost, g, previous, text, value) && |text| <= CHUNK
      requires issued == before + {g.id}
      requires start <= |backend.log| && AllPartsOnly(backend.log, start, m0, key, {g.id})
      modifies `lost, backend
      ensures old(backend.log) <= backend.log
      ensures Switches(m0, backend.entries, backend.log, start, published, key, value)
      ensures Sound(backend.entries, key, issued, lost)
      ensures Untouched(m0, backend.entries, key, issued)
      ensures if r.Ok? then backend.faults == old(backend.faults) else backend.faults > old(backend.faults)
      ensures r.Ok? ==> published < |backend.log| && ChainAt(backend.entries, key) == Ok([g])
      ensures lost != old(lost) ==> lost == old(lost) + {g.id} && published == |backend.log| && backend.faults >= old(backend.faults) + 2
    {
      hide Publishing, Switches, Sound, Untouched, Manifest, ParseParts, PartKey, ChainAt, PartsOnly, Gather, View, Named,
        Removed, AllRemoved, AllPartsOnly, IsChain, Ids, Written, IsGeneration;
      ghost var m1 := backend.entries;
      var ok := backend.Set(key, text);
      if !ok {
        AbandonPublishing(m0, m1, key, before, lost, g, previous, text, value);
        var clean := Abort(backend, key, g, m0, g.count);
        published := |backend.log|;
        StillUnpublished(m0, backend.entries, old(backend.log), m1, backend.log, start, key, before, lost, g, previous, text, value, clean);
        if !clean {
          lost := lost + {g.id};
        }
        return Err(BackendFailure), published;
      }
      published := |backend.log| - 1;
      ghost var m2, log2 := backend.entries, backend.log;
      JustPublished(m0, m1, old(backend.log), log2, start, key, before, lost, g, previous, text, value);
      var removed := RemoveParts(backend, key, previous);
      ghost var m3 := backend.entries;
      OlderRemoved(m0, m2, m3, log2, backend.log, start, published, key, issued, lost, g, previous, value);
      if !removed {
        return Err(CleanupFailed), published;
      }
      if previous == [] {
        assert [g] + previous == [g];
        return Ok(()), published;
      }
      FitsAlone(g, m3, key, issued, lost, previous);
      ghost var log3 := backend.log;
      ok := backend.Set(key, Manifest([g]));
      Shrunk(m0, m3, backend.entries, log3, backend.log, start, published, key, issued, lost, g, previous, value, ok);
      if !ok {
        return Err(BackendFailure), published;
      }
      var none: seq<Generation> := [];
      assert [g] + none == [g];
      return Ok(()), published;
    }

    /** Writes a value over the chain of generations it replaces. */
    method Replace(key: bytes, value: bytes, previous: seq<Generation>, id: Option<bytes>, ghost before: set<bytes>)
      returns (r: Result<(), Fault>, ghost published: nat)
      requires Sound(backend.entries, key, before, lost) && ChainAt(backend.entries, key) == Ok(previous)
      requires id.Some? ==> IsGenerationId(id.value) && id.value !in before
      requires issued == before + IdSet(id) && |value| < 0x8000_0000_0000_0000
      modifies `lost, backend
      ensures Sound(backend.entries, key, issued, lost)
      ensures old(backend.log) <= backend.log
      ensures Switches(old(backend.entries), backend.entries, backend.log, |old(backend.log)|, published, key, value)
      ensures r.Ok? ==> published < |backend.log|
      ensures r.Ok? ==> ChainAt(backend.entries, key).Ok? && |ChainAt(backend.entries, key).value| <= 1
      ensures lost != old(lost) ==> id.Some? && lost == old(lost) + {id.value} && r.Err? && published == |backend.log|
                                    && backend.faults >= old(backend.faults) + 2
      ensures r.Err? ==> backend.faults > old(backend.faults) || id.None? || (r == Err(BacklogFull) && |previous| == 8)
      ensures Untouched(old(backend.entries), backend.entries, key, issued)
    {
      ghost var m0, log0 := backend.entries, backend.log;
      SoundChain(m0, key, before, lost);
      FreshId(m0, key, before, lost, id);
      hide ParseParts, PartKey, PartsOnly, Gather, Manifest, Untouched, View, Switches, Named, Addressable, Sound, Retained,
        ChainAt, IsChain, IsGenerationId, AllPartsOnly;
      var prepared;
      ghost var clean;
      prepared, clean := PrepareParts(backend, key, value, previous, id);
      if prepared.Err? {
        PrepareFailed(m0, backend.entries, log0, backend.log, key, value, before, lost, id, clean);
        published := |backend.log|;
        if !clean {
          lost := lost + {id.value};
        }
        return Err(prepared.error), published;
      }
      if prepared.value.Plain? {
        NothingYet(m0, log0, key, value, before, lost, id);
        var ok := backend.Set(key, prepared.value.text);
        PlainStored(m0, backend.entries, log0, backend.log, key, value, issued, lost, ok);
        published := if ok then |log0| else |backend.log|;
        return if ok then Ok(()) else Err(BackendFailure), published;
      }
      r, published := Publish(key, value, previous, prepared.value.g, prepared.value.text, m0, |log0|, before);
    }

    /** Stores a value. Until the publishing write the credential reads exactly as before; from it on, at
        every state, exactly as the new value. */
    method Set(key: bytes, value: bytes, id: Option<bytes>) returns (r: Result<(), Fault>, ghost published: nat)
      requires Sound(backend.entries, key, issued, lost)
      requires id.Some? ==> IsGenerationId(id.value) && id.value !in issued
      requires |value| < 0x8000_0000_0000_0000
      modifies this, backend
      ensures issued == old(issued) + IdSet(id)
      ensures Sound(backend.entries, key, issued, lost)
      ensures old(backend.log) <= backend.log
      ensures Switches(old(backend.entries), backend.entries, backend.log, |old(backend.log)|, published, key, value)
      ensures r.Ok? ==> published < |backend.log|
      ensures r.Ok? ==> ChainAt(backend.entries, key).Ok? && |ChainAt(backend.entries, key).value| <= 1
      ensures lost != old(lost) ==> id.Some? && lost == old(lost) + {id.value} && r.Err? && published == |backend.log|
                                    && backend.faults >= old(backend.faults) + 2
      ensures r.Err? ==> backend.faults > old(backend.faults) || id.None?
                         || (r == Err(Invalid) && old(ChainAt(backend.entries, key)).Err?)
                         || (r == Err(BacklogFull) && old(ChainAt(backend.entries, key)).Ok? && |old(ChainAt(backend.entries, key)).value| == 8)
      ensures Untouched(old(backend.entries), backend.entries, key, issued)
    {
      hide ParseParts, PartKey, PartsOnly, Gather, Manifest, Untouched, View, Switches, Named, Addressable;
      ghost var m0, log0, before := backend.entries, backend.log, issued;
      published := |log0|;
      issued := issued + IdSet(id);
      NothingYet(m0, log0, key, value, before, lost, id);
      var entry := backend.Get(key);
      if entry.Err? && entry.error != NotFound {
        return Err(entry.error), published;
      }
      var parsed := if entry.Ok? then ParseParts(entry.value) else Ok([]);
      if parsed.Err? {
        return Err(Invalid), published;
      }
      r, published := Replace(key, value, parsed.value, id, before);
    }

    /** Removes the credential. Its entry goes last: a failed cleanup keeps a manifest naming every part
        still stored, and a Delete without failures leaves no entry and no addressable part. */
    method Delete(key: bytes) returns (r: Result<(), Fault>)
      requires Sound(backend.entries, key, issued, lost)
      modifies backend
      ensures Sound(backend.entries, key, issued, lost)
      ensures old(backend.log) <= backend.log
      ensures forall i | |old(backend.log)| <= i < |backend.log| ::
                OnlyFades(old(backend.entries), backend.log[i], key) || (r.Ok? && i == |backend.log| - 1)
      ensures if r.Ok? then View(backend.entries, key) == Err(NotFound)
              else Same(old(backend.entries), backend.entries, key) && OnlyFades(old(backend.entries), backend.entries, key)
      ensures r.Ok? ==> forall id, i: nat :: UrlSafe(id) && PartKey(key, id, i) in backend.entries ==> id in lost
      ensures r.Err? ==> backend.faults > old(backend.faults)
                         || (r == Err(NotFound) && key !in old(backend.entries))
                         || (r == Err(Invalid) && old(ChainAt(backend.entries, key)).Err?)
      ensures Untouched(old(backend.entries), backend.entries, key, issued)
    {
      hide ParseParts, PartKey, PartsOnly, Untouched, View, Named, Addressable, Removed, Sound, OnlyFades;
      ghost var m0, log0 := backend.entries, backend.log;
      StillThere(m0, key, issued);
      var entry := backend.Get(key);
      if entry.Err? {
        return Err(entry.error);
      }
      var parsed := ParseParts(entry.value);
      if parsed.Err? {
        return Err(Invalid);
      }
      var ok := RemoveParts(backend, key, parsed.value);
      ghost var m1 := backend.entries;
      PartsRemoved(m0, m1, log0, backend.log, key, issued, lost, parsed.value);
      if !ok {
        return Err(CleanupFailed);
      }
      var gone := backend.Remove(key);
      if gone.Err? {
        return Err(gone.error);
      }
      EntryRemoved(m0, m1, key, issued, lost);
      return Ok(());
    }
  }
}
