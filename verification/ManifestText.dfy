/**
 The text of a credential manifest: the generations whose parts it names, newest first, as nested
 JSON behind a fixed prefix; and the names of the backend entries that hold the parts.
 */
module ManifestText {
  import opened Bytes
  import opened Outcomes

  /** One published set of parts. */
  datatype Generation = Generation(id: bytes, count: nat)

  const PREFIX: bytes := Ascii("knowledge-parts-v1:")
  const OPEN: bytes := Ascii("{\"generation\":\"")
  const COUNT: bytes := Ascii("\",\"count\":")
  const PREVIOUS: bytes := Ascii(",\"previous\":")
  const CLOSE: bytes := Ascii("}")
  const PART: bytes := Ascii(".part.")
  const DOT: bytes := Ascii(".")

  const CHUNK := 2560
  const ID_LENGTH := 24

  function Ascii(s: string): (r: bytes)
    requires forall i | 0 <= i < |s| :: s[i] < '\U{0080}'
  {
    seq(|s|, i requires 0 <= i < |s| => (s[i] as int) as byte)
  }

  /** The alphabet of unpadded URL-safe base64. */
  predicate IsUrlSafe(c: byte) {
    IsIdentCont(c) || c == 0x2D
  }

  predicate UrlSafe(s: bytes) {
    forall i | 0 <= i < |s| :: IsUrlSafe(s[i])
  }

  /** Eighteen random bytes in base64. */
  predicate IsGenerationId(s: bytes) {
    |s| == ID_LENGTH && UrlSafe(s)
  }

  /** What a Set of a string shorter than 2^63 bytes may write for one generation. */
  predicate IsGeneration(g: Generation) {
    IsGenerationId(g.id) && 1 <= g.count < 10_000_000_000_000_000
  }

  predicate IsChain(chain: seq<Generation>) {
    forall i | 0 <= i < |chain| :: IsGeneration(chain[i])
  }

  /** The manifest of a chain, followed by `rest`. */
  function EncodeThen(chain: seq<Generation>, rest: bytes): bytes
    requires chain != []
    decreases |chain|
  {
    OPEN + (chain[0].id + (COUNT + (Decimal(chain[0].count) + EncodePrevious(chain, rest))))
  }

  function EncodePrevious(chain: seq<Generation>, rest: bytes): bytes
    requires chain != []
    decreases |chain|, 0
  {
    if |chain| == 1 then CLOSE + rest else PREVIOUS + EncodeThen(chain[1..], CLOSE + rest)
  }

  /** The value stored under the credential's own key. */
  function Manifest(chain: seq<Generation>): bytes
    requires chain != []
  {
    PREFIX + EncodeThen(chain, [])
  }

  // ----- reading it back -----

  datatype Unreadable = InvalidManifest

  function Strip(prefix: bytes, text: bytes): (r: Option<bytes>)
    ensures r.Some? ==> |r.value| == |text| - |prefix|
  {
    if prefix <= text then Some(text[|prefix|..]) else None
  }

  function UrlSafeRun(text: bytes): (n: nat)
    ensures n <= |text|
  {
    if text == [] || !IsUrlSafe(text[0]) then 0 else 1 + UrlSafeRun(text[1..])
  }

  function DigitRun(text: bytes): (n: nat)
    ensures n <= |text|
  {
    if text == [] || !IsDigit(text[0]) then 0 else 1 + DigitRun(text[1..])
  }

  function Number(digits: bytes): nat
    requires forall i | 0 <= i < |digits| :: IsDigit(digits[i])
  {
    if digits == [] then 0
    else
      assert IsDigit(digits[|digits| - 1]);
      10 * Number(digits[..|digits| - 1]) + (digits[|digits| - 1] as int - 0x30)
  }

  lemma {:induction false} DigitRunIsDigits(text: bytes)
    ensures forall i | 0 <= i < DigitRun(text) :: IsDigit(text[i])
  {
    if text != [] && IsDigit(text[0]) {
      DigitRunIsDigits(text[1..]);
    }
  }

  /** A generation and what follows its count. */
  function DecodeHead(text: bytes): (r: Option<(Generation, bytes)>)
    ensures r.Some? ==> |r.value.1| < |text|
  {
    var t := Strip(OPEN, text);
    if t.None? then None else
    var n := UrlSafeRun(t.value);
    var u := Strip(COUNT, t.value[n..]);
    if u.None? then None else
    var d := DigitRun(u.value);
    DigitRunIsDigits(u.value);
    assert |OPEN| > 0;
    Some((Generation(t.value[..n], Number(u.value[..d])), u.value[d..]))
  }

  function DecodeObject(text: bytes): (r: Option<(seq<Generation>, bytes)>)
    ensures r.Some? ==> |r.value.0| > 0
    decreases |text|
  {
    var head := DecodeHead(text);
    if head.None? then None else
    var g, after := head.value.0, head.value.1;
    var end := Strip(CLOSE, after);
    if end.Some? then Some(([g], end.value)) else
    var inner := Strip(PREVIOUS, after);
    if inner.None? then None else
    var older := DecodeObject(inner.value);
    if older.None? then None else
    var last := Strip(CLOSE, older.value.1);
    if last.None? then None else Some(([g] + older.value.0, last.value))
  }

  /** Text without the prefix names no parts; text with it must be a manifest naming at least one part
      of a named generation. */
  function ParseParts(text: bytes): Result<seq<Generation>, Unreadable> {
    if !(PREFIX <= text) then Ok([]) else
    var doc := DecodeObject(text[|PREFIX|..]);
    if doc.None? || doc.value.1 != [] || doc.value.0[0].count < 1 || doc.value.0[0].id == []
    then Err(InvalidManifest)
    else Ok(doc.value.0)
  }

  lemma {:induction false} UrlSafeRunEnds(s: bytes, t: bytes)
    requires UrlSafe(s) && t != [] && !IsUrlSafe(t[0])
    ensures UrlSafeRun(s + t) == |s|
  {
    if s == [] {
      assert s + t == t;
    } else {
      assert (s + t)[1..] == s[1..] + t;
      UrlSafeRunEnds(s[1..], t);
    }
  }

  lemma {:induction false} DigitRunEnds(s: bytes, t: bytes)
    requires (forall i | 0 <= i < |s| :: IsDigit(s[i])) && t != [] && !IsDigit(t[0])
    ensures DigitRun(s + t) == |s|
  {
    if s == [] {
      assert s + t == t;
    } else {
      assert (s + t)[1..] == s[1..] + t;
      DigitRunEnds(s[1..], t);
    }
  }

  lemma {:induction false} NumberOfDecimal(n: nat)
    ensures Number(Decimal(n)) == n
  {
    var d := Decimal(n);
    if n >= 10 {
      NumberOfDecimal(n / 10);
      assert d[..|d| - 1] == Decimal(n / 10);
    } else {
      assert d[..0] == [];
    }
  }

  lemma StripOwn(prefix: bytes, t: bytes)
    ensures Strip(prefix, prefix + t) == Some(t)
  {
  }

  lemma HeadReadsBack(g: Generation, after: bytes)
    requires UrlSafe(g.id) && after != [] && !IsDigit(after[0])
    ensures DecodeHead(OPEN + (g.id + (COUNT + (Decimal(g.count) + after)))) == Some((g, after))
  {
    var number := Decimal(g.count) + after;
    var counted := COUNT + number;
    StripOwn(OPEN, g.id + counted);
    UrlSafeRunEnds(g.id, counted);
    assert (g.id + counted)[|g.id|..] == counted && (g.id + counted)[..|g.id|] == g.id;
    StripOwn(COUNT, number);
    DigitRunEnds(Decimal(g.count), after);
    assert number[|Decimal(g.count)|..] == after && number[..|Decimal(g.count)|] == Decimal(g.count);
    NumberOfDecimal(g.count);
  }

  lemma PreviousStart(chain: seq<Generation>, rest: bytes)
    requires chain != []
    ensures EncodePrevious(chain, rest) != [] && !IsDigit(EncodePrevious(chain, rest)[0])
    ensures Strip(CLOSE, EncodePrevious(chain, rest)) == if |chain| == 1 then Some(rest) else None
  {
    if |chain| == 1 {
      StripOwn(CLOSE, rest);
      assert (CLOSE + rest)[0] == CLOSE[0];
    } else {
      var p := PREVIOUS + EncodeThen(chain[1..], CLOSE + rest);
      assert p[0] == PREVIOUS[0];
      assert !(CLOSE <= p) by {
        assert CLOSE[0] != p[0];
      }
    }
  }

  lemma {:induction false} ObjectReadsBack(chain: seq<Generation>, rest: bytes)
    requires chain != [] && forall i | 0 <= i < |chain| :: UrlSafe(chain[i].id)
    ensures DecodeObject(EncodeThen(chain, rest)) == Some((chain, rest))
    decreases |chain|
  {
    hide UrlSafe, DecodeHead, IsDigit;
    var after := EncodePrevious(chain, rest);
    PreviousStart(chain, rest);
    assert UrlSafe(chain[0].id);
    HeadReadsBack(chain[0], after);
    if |chain| == 1 {
      assert chain == [chain[0]];
    } else {
      StripOwn(PREVIOUS, EncodeThen(chain[1..], CLOSE + rest));
      forall i | 0 <= i < |chain[1..]| ensures UrlSafe(chain[1..][i].id) {
        assert chain[1..][i] == chain[i + 1];
      }
      ObjectReadsBack(chain[1..], CLOSE + rest);
      StripOwn(CLOSE, rest);
      assert chain == [chain[0]] + chain[1..];
    }
  }

  /** Every manifest a Set writes is read back as the chain it was written for. */
  lemma ManifestReadsBack(chain: seq<Generation>)
    requires chain != [] && IsChain(chain)
    ensures ParseParts(Manifest(chain)) == Ok(chain)
    ensures PREFIX <= Manifest(chain)
  {
    forall i | 0 <= i < |chain| ensures UrlSafe(chain[i].id) {
      assert IsGeneration(chain[i]);
    }
    assert IsGeneration(chain[0]);
    ObjectReadsBack(chain, []);
    assert Manifest(chain)[|PREFIX|..] == EncodeThen(chain, []);
  }

  lemma {:induction false} DecimalWidth(n: nat, bound: nat, width: nat)
    requires n < bound && bound == Power10(width) && width >= 1
    ensures |Decimal(n)| <= width
    decreases width
  {
    if n >= 10 {
      if width > 1 {
        DecimalWidth(n / 10, Power10(width - 1), width - 1);
      }
    }
  }

  function Power10(n: nat): nat {
    if n == 0 then 1 else 10 * Power10(n - 1)
  }

  lemma CountWidth(n: nat)
    requires n < 10_000_000_000_000_000
    ensures |Decimal(n)| <= 16
  {
    assert Power10(4) == 10_000;
    assert Power10(8) == 100_000_000;
    assert Power10(12) == 1_000_000_000_000;
    assert Power10(16) == 10_000_000_000_000_000;
    DecimalWidth(n, Power10(16), 16);
  }

  lemma {:induction false} EncodedLength(chain: seq<Generation>, rest: bytes)
    requires chain != [] && IsChain(chain)
    ensures |EncodeThen(chain, rest)| <= 78 * |chain| - 12 + |rest|
    decreases |chain|
  {
    assert IsGeneration(chain[0]);
    CountWidth(chain[0].count);
    if |chain| > 1 {
      forall i | 0 <= i < |chain[1..]| ensures IsGeneration(chain[1..][i]) {
        assert chain[1..][i] == chain[i + 1];
      }
      EncodedLength(chain[1..], CLOSE + rest);
    }
  }

  /** Eight generations fit one native entry with room to spare. */
  lemma ManifestFits(chain: seq<Generation>)
    requires chain != [] && IsChain(chain) && |chain| <= 8
    ensures |Manifest(chain)| <= 631 < CHUNK
  {
    EncodedLength(chain, []);
  }

  // ----- part names -----

  /** The backend entry holding one part. */
  function PartKey(key: bytes, id: bytes, i: nat): bytes {
    key + PART + id + DOT + Decimal(i)
  }

  lemma LastDotSplits(a: bytes, b: bytes, c: bytes, d: bytes)
    requires a + DOT + b == c + DOT + d && 0x2E !in b && 0x2E !in d
    ensures a == c && b == d
  {
    var s := a + DOT + b;
    assert s[|c|] == 0x2E && s[|a|] == 0x2E;
    DotBefore(a, b, s, |c|);
    DotBefore(c, d, s, |a|);
    assert a == s[..|a|] && c == s[..|c|];
    assert b == s[|a| + 1..] && d == s[|c| + 1..];
  }

  lemma DotBefore(a: bytes, b: bytes, s: bytes, k: nat)
    requires s == a + DOT + b && k < |s|
    ensures k > |a| ==> s[k] in b
  {
    if k > |a| {
      assert s[k] == b[k - |a| - 1];
    }
  }

  /** A part's name determines its credential, its generation and its number. */
  lemma PartKeyInjective(key: bytes, id: bytes, i: nat, key': bytes, id': bytes, i': nat)
    requires UrlSafe(id) && UrlSafe(id') && PartKey(key, id, i) == PartKey(key', id', i')
    ensures key == key' && id == id' && i == i'
  {
    LastDotSplits(key + PART + id, Decimal(i), key' + PART + id', Decimal(i'));
    DecimalInjective(i, i');
    var part := Ascii(".part");
    assert PART == part + DOT;
    assert key + PART + id == (key + part) + DOT + id;
    assert key' + PART + id' == (key' + part) + DOT + id';
    LastDotSplits(key + part, id, key' + part, id');
    assert (key + part)[..|key|] == key && (key' + part)[..|key'|] == key';
  }

  lemma PartKeyIsLonger(key: bytes, id: bytes, i: nat)
    ensures PartKey(key, id, i) != key
  {
    assert |PartKey(key, id, i)| > |key|;
  }
}
