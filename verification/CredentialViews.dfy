/**
 What a state of the native credential backend means: the value a credential reads as, the parts its
 manifest names, and what removing or adding parts of other generations leaves alone.
 */
module CredentialViews {
  import opened Bytes
  import opened ManifestText
  import opened Outcomes

  type Entries = map<bytes, bytes>

  datatype Fault = NotFound | Invalid | PartUnavailable | BackendFailure | CleanupFailed | BacklogFull | NoRandomness

  /** The generations the credential's entry names; none for a plain or absent value. */
  function ChainAt(m: Entries, key: bytes): Result<seq<Generation>, Unreadable> {
    if key in m then ParseParts(m[key]) else Ok([])
  }

  /** The first `n` parts of a generation, joined. */
  function Gather(m: Entries, key: bytes, id: bytes, n: nat): Option<bytes> {
    if n == 0 then Some([])
    else if Gather(m, key, id, n - 1).None? || PartKey(key, id, n - 1) !in m then None
    else Some(Gather(m, key, id, n - 1).value + m[PartKey(key, id, n - 1)])
  }

  /** What the credential reads as when no read fails. */
  function View(m: Entries, key: bytes): Result<bytes, Fault> {
    if key !in m then Err(NotFound)
    else match ParseParts(m[key])
      case Err(_) => Err(Invalid)
      case Ok(chain) => if chain == [] then Ok(m[key]) else Joined(m, key, chain[0])
  }

  function Joined(m: Entries, key: bytes, g: Generation): Result<bytes, Fault> {
    match Gather(m, key, g.id, g.count)
    case None => Err(PartUnavailable)
    case Some(v) => Ok(v)
  }

  // ----- comparing two states -----

  predicate Same(m: Entries, m': Entries, k: bytes) {
    (k in m <==> k in m') && (k in m ==> m[k] == m'[k])
  }

  /** `k` names a part of one of these generations of the credential. */
  ghost predicate IsPart(key: bytes, ids: set<bytes>, k: bytes) {
    exists id, i: nat :: id in ids && k == PartKey(key, id, i)
  }

  /** The two states differ at most in parts of these generations. */
  ghost predicate PartsOnly(m: Entries, m': Entries, key: bytes, ids: set<bytes>) {
    forall k :: Same(m, m', k) || IsPart(key, ids, k)
  }

  ghost predicate Removed(m: Entries, m': Entries, key: bytes, ids: set<bytes>) {
    PartsOnly(m, m', key, ids) && forall k | k in m' :: k in m && m[k] == m'[k]
  }

  predicate AllUrlSafe(ids: set<bytes>) {
    forall id | id in ids :: UrlSafe(id)
  }

  lemma PartsOnlyStep(m: Entries, m': Entries, m'': Entries, key: bytes, ids: set<bytes>)
    requires PartsOnly(m, m', key, ids) && PartsOnly(m', m'', key, ids)
    ensures PartsOnly(m, m'', key, ids)
  {
    hide IsPart;
    forall k ensures Same(m, m'', k) || IsPart(key, ids, k) {
      assert Same(m, m', k) || IsPart(key, ids, k);
      assert Same(m', m'', k) || IsPart(key, ids, k);
    }
  }

  lemma PartsOnlyWider(m: Entries, m': Entries, key: bytes, ids: set<bytes>, more: set<bytes>)
    requires PartsOnly(m, m', key, ids) && ids <= more
    ensures PartsOnly(m, m', key, more)
  {
    forall k ensures Same(m, m', k) || IsPart(key, more, k) {
      assert Same(m, m', k) || IsPart(key, ids, k);
    }
  }

  lemma KeyKept(m: Entries, m': Entries, key: bytes, ids: set<bytes>)
    requires PartsOnly(m, m', key, ids)
    ensures Same(m, m', key) && ChainAt(m, key) == ChainAt(m', key)
  {
    assert Same(m, m', key) || IsPart(key, ids, key);
    forall id, i: nat ensures key != PartKey(key, id, i) {
      PartKeyIsLonger(key, id, i);
    }
  }

  lemma PartKept(m: Entries, m': Entries, key: bytes, ids: set<bytes>, id: bytes, i: nat)
    requires PartsOnly(m, m', key, ids) && AllUrlSafe(ids) && UrlSafe(id) && id !in ids
    ensures Same(m, m', PartKey(key, id, i))
  {
    var k := PartKey(key, id, i);
    assert Same(m, m', k) || IsPart(key, ids, k);
    if IsPart(key, ids, k) {
      var id', i' :| id' in ids && k == PartKey(key, id', i');
      PartKeyInjective(key, id, i, key, id', i');
    }
  }

  lemma {:induction false} GatherKept(m: Entries, m': Entries, key: bytes, ids: set<bytes>, id: bytes, n: nat)
    requires PartsOnly(m, m', key, ids) && AllUrlSafe(ids) && UrlSafe(id) && id !in ids
    ensures Gather(m, key, id, n) == Gather(m', key, id, n)
  {
    hide PartsOnly;
    if n > 0 {
      GatherKept(m, m', key, ids, id, n - 1);
      PartKept(m, m', key, ids, id, n - 1);
    }
  }

  /** A credential keeps its value while parts of other generations come and go. */
  lemma ViewKept(m: Entries, m': Entries, key: bytes, ids: set<bytes>)
    requires PartsOnly(m, m', key, ids) && AllUrlSafe(ids)
    requires ChainAt(m, key).Ok? && ChainAt(m, key).value != [] ==>
               UrlSafe(ChainAt(m, key).value[0].id) && ChainAt(m, key).value[0].id !in ids
    ensures View(m', key) == View(m, key)
  {
    hide PartsOnly;
    KeyKept(m, m', key, ids);
    if key in m && ParseParts(m[key]).Ok? && ParseParts(m[key]).value != [] {
      var g := ParseParts(m[key]).value[0];
      GatherKept(m, m', key, ids, g.id, g.count);
    }
  }

  lemma {:induction false} GatherLost(m: Entries, m': Entries, key: bytes, id: bytes, n: nat)
    requires forall k | k in m' :: k in m && m[k] == m'[k]
    ensures Gather(m', key, id, n).None? || Gather(m', key, id, n) == Gather(m, key, id, n)
  {
    if n > 0 {
      GatherLost(m, m', key, id, n - 1);
    }
  }

  /** Losing parts makes a value unavailable; it never makes another value of it. */
  lemma ViewLost(m: Entries, m': Entries, key: bytes, ids: set<bytes>)
    requires Removed(m, m', key, ids)
    ensures View(m', key) == View(m, key) || View(m', key) == Err(PartUnavailable)
  {
    hide PartsOnly;
    KeyKept(m, m', key, ids);
    if key in m && ParseParts(m[key]).Ok? && ParseParts(m[key]).value != [] {
      var g := ParseParts(m[key]).value[0];
      GatherLost(m, m', key, g.id, g.count);
    }
  }

  // ----- the standing invariant of one credential -----

  function Ids(chain: seq<Generation>): set<bytes> {
    set i | 0 <= i < |chain| :: chain[i].id
  }

  /** The chain names this part. */
  ghost predicate Named(chain: seq<Generation>, id: bytes, i: nat) {
    exists k | 0 <= k < |chain| :: chain[k].id == id && i < chain[k].count
  }

  predicate DistinctIds(chain: seq<Generation>) {
    forall i, j | 0 <= i < j < |chain| :: chain[i].id != chain[j].id
  }

  /** Every stored part is named by the chain or belongs to a generation whose abort could not be
      cleaned up. */
  ghost predicate Addressable(m: Entries, key: bytes, chain: seq<Generation>, lost: set<bytes>) {
    forall id, i: nat :: UrlSafe(id) && PartKey(key, id, i) in m ==> id in lost || Named(chain, id, i)
  }

  /** The chain is short, of generations already issued, and every stored part is addressable. */
  ghost predicate Retained(m: Entries, key: bytes, chain: seq<Generation>, issued: set<bytes>, lost: set<bytes>) {
    && IsChain(chain) && DistinctIds(chain) && |chain| <= 8
    && Ids(chain) <= issued
    && Addressable(m, key, chain, lost)
  }

  /** What every Set and Delete keeps of one credential. A manifest nobody can read is left alone. */
  ghost predicate Sound(m: Entries, key: bytes, issued: set<bytes>, lost: set<bytes>) {
    && AllUrlSafe(issued) && lost <= issued
    && (ChainAt(m, key).Ok? ==> Retained(m, key, ChainAt(m, key).value, issued, lost))
  }

  lemma NamedIsIssued(chain: seq<Generation>, id: bytes, i: nat)
    requires Named(chain, id, i)
    ensures id in Ids(chain)
  {
  }

  /** No part of a generation that was never issued is stored. */
  lemma FreshHasNoParts(m: Entries, key: bytes, issued: set<bytes>, lost: set<bytes>, id: bytes)
    requires Sound(m, key, issued, lost) && ChainAt(m, key).Ok? && UrlSafe(id) && id !in issued
    ensures forall i: nat :: PartKey(key, id, i) !in m
  {
    var chain := ChainAt(m, key).value;
    forall i: nat ensures PartKey(key, id, i) !in m {
      if PartKey(key, id, i) in m {
        assert Named(chain, id, i);
        NamedIsIssued(chain, id, i);
      }
    }
  }

  lemma SoundIssues(m: Entries, key: bytes, issued: set<bytes>, lost: set<bytes>, id: bytes)
    requires Sound(m, key, issued, lost) && UrlSafe(id)
    ensures Sound(m, key, issued + {id}, lost)
  {
  }

  /** An abort that was cleaned up, or was not. */
  lemma SoundAborted(m: Entries, m': Entries, key: bytes, issued: set<bytes>, lost: set<bytes>, g: Generation,
          clean: bool)
    requires Sound(m, key, issued, lost) && ChainAt(m, key).Ok? && PartsOnly(m, m', key, {g.id})
    requires UrlSafe(g.id) && g.id !in issued
    requires clean ==> forall i: nat :: PartKey(key, g.id, i) !in m'
    ensures Sound(m', key, issued + {g.id}, if clean then lost else lost + {g.id})
  {
    var chain := ChainAt(m, key).value;
    var lost' := if clean then lost else lost + {g.id};
    KeyKept(m, m', key, {g.id});
    forall id, i: nat | UrlSafe(id) && PartKey(key, id, i) in m' ensures id in lost' || Named(chain, id, i) {
      hide PartsOnly;
      if id != g.id {
        PartKept(m, m', key, {g.id}, id, i);
      }
    }
    hide PartsOnly;
    assert Addressable(m', key, chain, lost');
  }

  /** A published generation in front of the chain it replaces. */
  lemma SoundPublished(m: Entries, m1: Entries, key: bytes, issued: set<bytes>, lost: set<bytes>, g: Generation,
          text: bytes)
    requires Sound(m, key, issued, lost) && ChainAt(m, key).Ok? && |ChainAt(m, key).value| < 8
    requires PartsOnly(m, m1, key, {g.id}) && IsGeneration(g) && g.id !in issued
    requires forall i: nat :: PartKey(key, g.id, i) in m1 ==> i < g.count
    requires ParseParts(text) == Ok([g] + ChainAt(m, key).value)
    ensures Sound(m1[key := text], key, issued + {g.id}, lost)
  {
    var older := ChainAt(m, key).value;
    var chain := [g] + older;
    var m' := m1[key := text];
    forall id, i: nat | UrlSafe(id) && PartKey(key, id, i) in m' ensures id in lost || Named(chain, id, i) {
      hide PartsOnly;
      PartKeyIsLonger(key, id, i);
      if id == g.id {
        assert chain[0].id == id && i < chain[0].count;
      } else {
        PartKept(m, m1, key, {g.id}, id, i);
        if Named(older, id, i) {
          var k :| 0 <= k < |older| && older[k].id == id && i < older[k].count;
          assert chain[k + 1].id == id && i < chain[k + 1].count;
        }
      }
    }
    hide PartsOnly;
    assert Addressable(m', key, chain, lost);
    ChainGrows(g, older, issued);
  }

  lemma ChainGrows(g: Generation, chain: seq<Generation>, issued: set<bytes>)
    requires IsGeneration(g) && IsChain(chain) && DistinctIds(chain) && Ids(chain) <= issued && g.id !in issued
    ensures IsChain([g] + chain) && DistinctIds([g] + chain) && Ids([g] + chain) <= issued + {g.id}
  {
    var c := [g] + chain;
    forall i | 0 <= i < |c| ensures c[i].id in issued + {g.id} && IsGeneration(c[i]) && (i > 0 ==> c[i].id != g.id) {
      if i > 0 {
        assert c[i] == chain[i - 1] && chain[i - 1].id in Ids(chain);
      }
    }
    forall i, j | 0 <= i < j < |c| ensures c[i].id != c[j].id {
      if i > 0 {
        assert c[i] == chain[i - 1] && c[j] == chain[j - 1];
      }
    }
  }

  /** Removing parts keeps the invariant. */
  lemma SoundRemoved(m: Entries, m': Entries, key: bytes, ids: set<bytes>, issued: set<bytes>, lost: set<bytes>)
    requires Sound(m, key, issued, lost) && Removed(m, m', key, ids)
    ensures Sound(m', key, issued, lost)
  {
    KeyKept(m, m', key, ids);
    hide PartsOnly;
    if ChainAt(m, key).Ok? {
      assert Addressable(m', key, ChainAt(m, key).value, lost);
    }
  }

  lemma NamedSplits(g: Generation, older: seq<Generation>, id: bytes, i: nat)
    ensures Named([g] + older, id, i) <==> Named([g], id, i) || Named(older, id, i)
  {
    var chain := [g] + older;
    assert chain[0] == g == [g][0];
    assert forall k | 0 <= k < |older| :: older[k] == chain[k + 1];
    assert forall k | 0 < k < |chain| :: chain[k] == older[k - 1];
  }

  /** Once the older generations' parts are gone, the manifest may stop naming them. */
  lemma SoundShrunk(m: Entries, key: bytes, issued: set<bytes>, lost: set<bytes>, g: Generation,
          older: seq<Generation>, text: bytes)
    requires Sound(m, key, issued, lost) && ChainAt(m, key) == Ok([g] + older)
    requires forall id, i: nat | Named(older, id, i) :: PartKey(key, id, i) !in m
    requires ParseParts(text) == Ok([g])
    ensures Sound(m[key := text], key, issued, lost)
  {
    var chain := [g] + older;
    var m' := m[key := text];
    assert chain[0] == g;
    forall id, i: nat | UrlSafe(id) && PartKey(key, id, i) in m' ensures id in lost || Named([g], id, i) {
      PartKeyIsLonger(key, id, i);
      NamedSplits(g, older, id, i);
    }
    assert Addressable(m', key, [g], lost);
    assert g.id in Ids(chain);
  }

  /** A plain value over a plain or absent one. */
  lemma SoundPlain(m: Entries, key: bytes, issued: set<bytes>, lost: set<bytes>, text: bytes)
    requires Sound(m, key, issued, lost) && ChainAt(m, key) == Ok([]) && !(PREFIX <= text)
    ensures Sound(m[key := text], key, issued, lost)
  {
    var m' := m[key := text];
    forall id, i: nat | UrlSafe(id) && PartKey(key, id, i) in m' ensures id in lost || Named([], id, i) {
      PartKeyIsLonger(key, id, i);
    }
    assert Addressable(m', key, [], lost);
  }

  /** Deleting the entry of a credential whose parts are gone leaves nothing addressable behind. */
  lemma SoundDeleted(m: Entries, key: bytes, issued: set<bytes>, lost: set<bytes>)
    requires Sound(m, key, issued, lost) && ChainAt(m, key).Ok?
    requires forall id, i: nat | Named(ChainAt(m, key).value, id, i) :: PartKey(key, id, i) !in m
    ensures Sound(m - {key}, key, issued, lost)
    ensures forall id, i: nat :: UrlSafe(id) && PartKey(key, id, i) in m - {key} ==> id in lost
  {
    var m' := m - {key};
    forall id, i: nat | UrlSafe(id) && PartKey(key, id, i) in m' ensures id in lost {
      assert PartKey(key, id, i) in m;
    }
    assert Addressable(m', key, [], lost);
  }

  // ----- other credentials -----

  /** Nothing outside one credential's own entry and parts changed. */
  ghost predicate Untouched(m: Entries, m': Entries, key: bytes, issued: set<bytes>) {
    forall k | k != key :: Same(m, m', k) || IsPart(key, issued, k)
  }

  /** Another credential, unless its name is one of this one's parts, reads as before and keeps its
      invariant. */
  lemma OtherCredentialKept(m: Entries, m': Entries, key: bytes, issued: set<bytes>, other: bytes, lost: set<bytes>)
    requires Untouched(m, m', key, issued) && AllUrlSafe(issued)
    requires other != key && !IsPart(key, issued, other)
    requires forall id, i: nat :: UrlSafe(id) ==> PartKey(other, id, i) != key
    requires Sound(m, other, issued, lost)
    ensures View(m', other) == View(m, other) && Sound(m', other, issued, lost)
  {
    assert Same(m, m', other);
    forall id, i: nat | UrlSafe(id) ensures Same(m, m', PartKey(other, id, i)) {
      var k := PartKey(other, id, i);
      assert Same(m, m', k) || IsPart(key, issued, k);
      if IsPart(key, issued, k) {
        var id', i' :| id' in issued && k == PartKey(key, id', i');
        PartKeyInjective(other, id, i, key, id', i');
      }
    }
    if other in m && ParseParts(m[other]).Ok? && ParseParts(m[other]).value != [] {
      var g := ParseParts(m[other]).value[0];
      assert IsGeneration(g);
      OtherGatherKept(m, m', other, g.id, g.count);
    }
    if ChainAt(m, other).Ok? {
      assert Addressable(m', other, ChainAt(m, other).value, lost);
    }
  }

  lemma {:induction false} OtherGatherKept(m: Entries, m': Entries, key: bytes, id: bytes, n: nat)
    requires forall i: nat :: Same(m, m', PartKey(key, id, i))
    ensures Gather(m', key, id, n) == Gather(m, key, id, n)
  {
    if n > 0 {
      OtherGatherKept(m, m', key, id, n - 1);
      assert Same(m, m', PartKey(key, id, n - 1));
    }
  }
}
