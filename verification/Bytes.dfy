/**
 Byte strings as Go sees them: a string is a sequence of bytes, an offset is a byte offset.
 Holds the identifier rule of the placeholder language, the splice's whitespace set, and
 `bytes.TrimSpace`, which is decided on decoded runes and therefore looks up to three
 bytes ahead.
 */
module Bytes {
  newtype byte = b: int | 0 <= b < 256

  type bytes = seq<byte>

  const DOLLAR: byte := 0x24
  const UNDERSCORE: byte := 0x5F

  /** The bytes of `s` between two offsets; an inverted or out-of-range pair reads as empty. */
  function Slice(s: bytes, lo: nat, hi: nat): bytes {
    if lo <= hi <= |s| then s[lo..hi] else []
  }

  lemma SliceOfSlice<T>(s: seq<T>, lo: nat, hi: nat, a: nat, b: nat)
    requires lo <= a <= b <= hi <= |s|
    ensures s[lo..hi][a - lo..b - lo] == s[a..b]
  {
    var t := s[lo..hi];
    forall i | 0 <= i < b - a ensures t[a - lo..b - lo][i] == s[a..b][i] {
      assert t[a - lo + i] == s[a + i];
    }
  }

  /** Letter or underscore: what may begin an identifier. */
  predicate IsIdentStart(c: byte) {
    0x61 <= c <= 0x7A || 0x41 <= c <= 0x5A || c == UNDERSCORE
  }

  /** Letter, digit or underscore: what may continue an identifier. */
  predicate IsIdentCont(c: byte) {
    IsIdentStart(c) || 0x30 <= c <= 0x39
  }

  /** Where the identifier characters starting at `i` end. */
  function IdentEnd(s: bytes, i: nat): (e: nat)
    requires i <= |s|
    ensures i <= e <= |s| && (e < |s| ==> !IsIdentCont(s[e]))
    ensures forall k | i <= k < e :: IsIdentCont(s[k])
    decreases |s| - i
  {
    if i < |s| && IsIdentCont(s[i]) then IdentEnd(s, i + 1) else i
  }

  lemma {:induction false} IdentEndIs(s: bytes, i: nat, e: nat)
    requires i <= e <= |s| && (forall k | i <= k < e :: IsIdentCont(s[k]))
    requires e < |s| ==> !IsIdentCont(s[e])
    ensures IdentEnd(s, i) == e
    decreases e - i
  {
    if i < e {
      IdentEndIs(s, i + 1, e);
    }
  }

  /** Inter-token whitespace, as the splice reads it. */
  predicate IsSpace(c: byte) {
    c == 0x20 || 0x09 <= c <= 0x0D
  }

  predicate AllSpace(s: bytes) {
    forall i | 0 <= i < |s| :: IsSpace(s[i])
  }

  /** The multi-byte encodings `unicode.IsSpace` accepts: U+0085, U+00A0, U+1680, U+2000-200A,
      U+2028, U+2029, U+202F, U+205F and U+3000. */
  predicate IsWideSpace(r: bytes) {
    || (|r| == 2 && r[0] == 0xC2 && (r[1] == 0x85 || r[1] == 0xA0))
    || (|r| == 3 && r[0] == 0xE1 && r[1] == 0x9A && r[2] == 0x80)
    || (|r| == 3 && r[0] == 0xE2 && r[1] == 0x80
        && (0x80 <= r[2] <= 0x8A || r[2] == 0xA8 || r[2] == 0xA9 || r[2] == 0xAF))
    || (|r| == 3 && r[0] == 0xE2 && r[1] == 0x81 && r[2] == 0x9F)
    || (|r| == 3 && r[0] == 0xE3 && r[1] == 0x80 && r[2] == 0x80)
  }

  /** Width of the whitespace rune `s` starts with, 0 when it starts with none. */
  function HeadSpace(s: bytes): (w: nat)
    ensures w <= |s|
  {
    if |s| >= 1 && IsSpace(s[0]) then 1
    else if |s| >= 2 && IsWideSpace(s[..2]) then 2
    else if |s| >= 3 && IsWideSpace(s[..3]) then 3
    else 0
  }

  /** Width of the whitespace rune `s` ends with, 0 when it ends with none. */
  function TailSpace(s: bytes): (w: nat)
    ensures w <= |s|
  {
    if |s| >= 1 && IsSpace(s[|s| - 1]) then 1
    else if |s| >= 2 && IsWideSpace(s[|s| - 2..]) then 2
    else if |s| >= 3 && IsWideSpace(s[|s| - 3..]) then 3
    else 0
  }

  function TrimLeft(s: bytes): (r: bytes)
    ensures |r| <= |s|
    decreases |s|
  {
    if HeadSpace(s) == 0 then s else TrimLeft(s[HeadSpace(s)..])
  }

  lemma {:induction false} TrimLeftIsSuffix(s: bytes)
    ensures TrimLeft(s) == s[|s| - |TrimLeft(s)|..]
    decreases |s|
  {
    hide HeadSpace;
    var w := HeadSpace(s);
    if w > 0 {
      TrimLeftIsSuffix(s[w..]);
      assert s[w..][|s[w..]| - |TrimLeft(s)|..] == s[|s| - |TrimLeft(s)|..];
    }
  }

  function TrimRight(s: bytes): (r: bytes)
    ensures r <= s
    decreases |s|
  {
    if TailSpace(s) == 0 then s else TrimRight(s[..|s| - TailSpace(s)])
  }

  /** `bytes.TrimSpace`. */
  function Trim(s: bytes): (r: bytes)
    ensures |r| <= |s|
  {
    TrimRight(TrimLeft(s))
  }

  /** Trimming never removes an identifier character. */
  lemma TrimKeepsInk(s: bytes, k: nat)
    requires k < |s| && IsIdentCont(s[k])
    ensures Trim(s) != []
  {
    hide TrimLeft, TrimRight;
    var i := TrimLeftKeepsInk(s, k);
    TrimRightKeepsInk(TrimLeft(s), i);
  }

  lemma {:induction false} TrimLeftKeepsInk(s: bytes, k: nat) returns (i: nat)
    requires k < |s| && IsIdentCont(s[k])
    ensures i < |TrimLeft(s)| && IsIdentCont(TrimLeft(s)[i])
    decreases |s|
  {
    var w := HeadSpace(s);
    if w == 0 {
      i := k;
    } else {
      HeadSpaceHasNoInk(s);
      i := TrimLeftKeepsInk(s[w..], k - w);
    }
  }

  lemma WideSpaceHasNoInk(r: bytes)
    requires IsWideSpace(r)
    ensures forall k | 0 <= k < |r| :: !IsIdentCont(r[k])
  {
  }

  lemma HeadSpaceHasNoInk(s: bytes)
    ensures forall k | 0 <= k < HeadSpace(s) :: !IsIdentCont(s[k])
  {
    hide IsWideSpace;
    var w := HeadSpace(s);
    if w > 1 {
      WideSpaceHasNoInk(s[..w]);
      forall k | 0 <= k < w ensures !IsIdentCont(s[k]) {
        assert s[k] == s[..w][k];
      }
    }
  }

  lemma {:induction false} TrimRightKeepsInk(s: bytes, k: nat)
    requires k < |s| && IsIdentCont(s[k])
    ensures TrimRight(s) != []
    decreases |s|
  {
    var w := TailSpace(s);
    if w != 0 {
      TailSpaceHasNoInk(s);
      TrimRightKeepsInk(s[..|s| - w], k);
    }
  }

  lemma TailSpaceHasNoInk(s: bytes)
    ensures forall k | |s| - TailSpace(s) <= k < |s| :: !IsIdentCont(s[k])
  {
    hide IsWideSpace;
    var w := TailSpace(s);
    var from := |s| - w;
    if w > 1 {
      WideSpaceHasNoInk(s[from..]);
      forall k | from <= k < |s| ensures !IsIdentCont(s[k]) {
        assert s[k] == s[from..][k - from];
      }
    }
  }

  // ----- decimal rendering -----

  predicate IsDigit(c: byte) { 0x30 <= c <= 0x39 }

  /** The decimal digits of a number, as `%d` prints it. */
  function Decimal(n: nat): (r: bytes)
    ensures |r| >= 1 && forall i | 0 <= i < |r| :: IsDigit(r[i])
  {
    if n < 10 then [0x30 + n as byte] else Decimal(n / 10) + [0x30 + (n % 10) as byte]
  }

  lemma {:induction false} DecimalInjective(m: nat, n: nat)
    requires Decimal(m) == Decimal(n)
    ensures m == n
    decreases m
  {
    var a, b := Decimal(m), Decimal(n);
    assert a[|a| - 1] == b[|b| - 1];
    if m >= 10 && n >= 10 {
      assert a[..|a| - 1] == Decimal(m / 10) && b[..|b| - 1] == Decimal(n / 10);
      DecimalInjective(m / 10, n / 10);
    }
  }
}
