/**
 The token text comparison and the source range it is accepted on. Some grammars absorb layout
 whitespace into an anonymous token; such tokens are compared trimmed on both sides, and the
 recorded range is the trimmed interior.
 */
module TokenText {
  import opened Bytes

  predicate TokenTextMatches(patText: bytes, tgtText: bytes, trim: bool) {
    if trim then Trim(patText) == Trim(tgtText) else patText == tgtText
  }

  /** The bytes of `src` the comparison of [start, end) was accepted on. */
  function AlignedTokenRange(src: bytes, start: nat, end: nat, trimmed: bool): (r: (nat, nat))
  {
    if trimmed then TrimmedRange(Slice(src, start, end), start) else (start, end)
  }

  function TrimmedRange(text: bytes, start: nat): (nat, nat) {
    var left := TrimLeft(text);
    var kept := TrimRight(left);
    if kept == [] then (start, start)
    else (start + |text| - |left|, start + |text| - |left| + |kept|)
  }

  lemma Interior(text: bytes, left: bytes, kept: bytes)
    requires |left| <= |text| && left == text[|text| - |left|..] && kept <= left
    ensures text[|text| - |left|..|text| - |left| + |kept|] == kept
  {
    assert text[|text| - |left|..][..|kept|] == kept;
  }

  lemma TrimmedRangeHoldsTrim(text: bytes, start: nat)
    ensures var r := TrimmedRange(text, start);
            start <= r.0 <= r.1 <= start + |text| && text[r.0 - start..r.1 - start] == Trim(text)
  {
    TrimLeftIsSuffix(text);
    hide TrimLeft, TrimRight;
    Interior(text, TrimLeft(text), TrimRight(TrimLeft(text)));
  }

  /** The recorded range stays inside the token and holds exactly the bytes that were compared:
      the whole token, or what trimming leaves of it. */
  lemma AlignedRangeHoldsComparedBytes(src: bytes, start: nat, end: nat, trimmed: bool)
    requires start <= end <= |src|
    ensures var r := AlignedTokenRange(src, start, end, trimmed);
            && start <= r.0 <= r.1 <= end
            && Slice(src, r.0, r.1) == if trimmed then Trim(Slice(src, start, end)) else Slice(src, start, end)
  {
    if trimmed {
      var r := TrimmedRange(src[start..end], start);
      TrimmedRangeHoldsTrim(src[start..end], start);
      SliceOfSlice(src, start, end, r.0, r.1);
    }
  }
}
