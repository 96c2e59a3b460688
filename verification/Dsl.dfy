/**
 The placeholder language and its two readers. `Parse` lists the placeholders of a pattern;
 `InterpolateTemplate` renders a replacement template. Both walk the source byte by byte and hand
 every `$` to the same lexer.
 */
module PlaceholderDsl {
  import opened Bytes
  import opened Outcomes
  import opened SyntaxTree
  import opened MatchRecords

  /** One placeholder occurrence and the bytes it occupies; the name is empty for a wildcard. */
  datatype Token = Token(name: bytes, kind: PlaceholderKind, start: nat, end: nat)

  datatype DslError = EmptyPattern | TreeSitterPrefix | BareDollar | TripleDollar

  datatype TemplateError = Lexing(e: DslError) | UnboundCapture(name: bytes) | WildcardReference

  /** "tree_sitter_query:" */
  const RAW_PREFIX: bytes :=
    [0x74, 0x72, 0x65, 0x65, 0x5F, 0x73, 0x69, 0x74, 0x74, 0x65, 0x72, 0x5F, 0x71, 0x75, 0x65, 0x72, 0x79, 0x3A]

  // ----- lexing -----

  /** How many dollars stand at `i`, counted up to `cap`. */
  function DollarRun(s: bytes, i: nat, cap: nat): (d: nat)
    requires i <= |s|
    ensures d <= cap && i + d <= |s|
    ensures forall k | i <= k < i + d :: s[k] == DOLLAR
    ensures d < cap && i + d < |s| ==> s[i + d] != DOLLAR
    decreases cap
  {
    if cap > 0 && i < |s| && s[i] == DOLLAR then 1 + DollarRun(s, i + 1, cap - 1) else 0
  }

  /** Reads `_` or a name behind one or three dollars. */
  function LexName(s: bytes, start: nat, tail: nat, named: PlaceholderKind, wild: PlaceholderKind, bare: DslError)
    : (r: Result<Token, DslError>)
    requires start < tail <= |s|
    ensures r.Ok? ==> r.value.start == start && start < r.value.end <= |s|
  {
    if tail == |s| then Err(bare)
    else if s[tail] == UNDERSCORE then Ok(Token([], wild, start, tail + 1))
    else if !IsIdentStart(s[tail]) then Err(bare)
    else
      var end := IdentEnd(s, tail + 1);
      Ok(Token(s[tail..end], named, start, end))
  }

  /** The placeholder starting at the dollar `s[start]`. */
  function Lex(s: bytes, start: nat): (r: Result<Token, DslError>)
    requires start < |s| && s[start] == DOLLAR
    ensures r.Ok? ==> r.value.start == start && start < r.value.end <= |s|
  {
    var dollars := DollarRun(s, start, 4);
    if dollars == 1 then LexName(s, start, start + 1, KindNode, KindNodeWild, BareDollar)
    else if dollars == 2 then Ok(Token([], KindLiteralDollar, start, start + 2))
    else if dollars == 3 then LexName(s, start, start + 3, KindSeq, KindSeqWild, TripleDollar)
    else Err(TripleDollar)
  }

  method ReadIdent(s: bytes, start: nat) returns (name: bytes, end: nat)
    requires start < |s|
    ensures end == IdentEnd(s, start + 1) && name == s[start..end]
  {
    end := start + 1;
    while end < |s| && IsIdentCont(s[end])
      invariant start < end <= |s| && IdentEnd(s, end) == IdentEnd(s, start + 1)
    {
      end := end + 1;
    }
    name := s[start..end];
  }

  /** Counts the dollars standing at `start`, at most four. */
  method CountDollars(s: bytes, start: nat) returns (dollars: nat)
    requires start < |s| && s[start] == DOLLAR
    ensures dollars == DollarRun(s, start, 4)
  {
    dollars := 1;
    var i := start + 1;
    while i < |s| && s[i] == DOLLAR && dollars < 4
      invariant 1 <= dollars <= 4 && i == start + dollars && i <= |s|
      invariant dollars + DollarRun(s, i, 4 - dollars) == DollarRun(s, start, 4)
    {
      dollars := dollars + 1;
      i := i + 1;
    }
  }

  method LexPlaceholder(s: bytes, start: nat) returns (r: Result<Token, DslError>)
    requires start < |s| && s[start] == DOLLAR
    ensures r == Lex(s, start)
  {
    hide DollarRun;
    var dollars := CountDollars(s, start);
    AtLeastOne(s, start);
    var tail := start + dollars;
    if dollars == 1 || dollars == 3 {
      var bare := if dollars == 1 then BareDollar else TripleDollar;
      if tail >= |s| {
        return Err(bare);
      }
      if s[tail] == UNDERSCORE {
        return Ok(Token([], if dollars == 1 then KindNodeWild else KindSeqWild, start, tail + 1));
      }
      if !IsIdentStart(s[tail]) {
        return Err(bare);
      }
      var name, end := ReadIdent(s, tail);
      return Ok(Token(name, if dollars == 1 then KindNode else KindSeq, start, end));
    } else if dollars == 2 {
      return Ok(Token([], KindLiteralDollar, start, start + 2));
    }
    return Err(TripleDollar);
  }

  lemma AtLeastOne(s: bytes, start: nat)
    requires start < |s| && s[start] == DOLLAR
    ensures DollarRun(s, start, 4) >= 1
  {
  }

  /** How a placeholder is written. */
  function Spelling(t: Token): bytes {
    match t.kind
    case KindNode => [DOLLAR] + t.name
    case KindNodeWild => [DOLLAR, UNDERSCORE]
    case KindSeq => [DOLLAR, DOLLAR, DOLLAR] + t.name
    case KindSeqWild => [DOLLAR, DOLLAR, DOLLAR, UNDERSCORE]
    case KindLiteralDollar => [DOLLAR, DOLLAR]
  }

  /** A named placeholder carries an identifier that is no wildcard; the others carry no name. */
  predicate NameFits(t: Token) {
    if t.kind.KindNode? || t.kind.KindSeq? then
      && |t.name| > 0 && IsIdentStart(t.name[0]) && t.name[0] != UNDERSCORE
      && forall k | 0 <= k < |t.name| :: IsIdentCont(t.name[k])
    else t.name == []
  }

  /** What may not follow a placeholder without being read into it. */
  predicate EndsAt(t: Token, s: bytes) {
    t.end < |s| ==>
      if t.kind.KindNode? || t.kind.KindSeq? then !IsIdentCont(s[t.end])
      else t.kind.KindLiteralDollar? ==> s[t.end] != DOLLAR
  }

  /** The lexer accepts exactly the spellings of placeholders, and takes as much as it can. */
  lemma LexIffSpelled(s: bytes, t: Token)
    requires t.start < |s| && s[t.start] == DOLLAR
    ensures Lex(s, t.start) == Ok(t)
       <==> NameFits(t) && t.end <= |s| && t.start + |Spelling(t)| == t.end
            && s[t.start..t.end] == Spelling(t) && EndsAt(t, s)
  {
    if Lex(s, t.start) == Ok(t) {
      LexIsSpelled(s, t);
    }
    if NameFits(t) && t.end <= |s| && t.start + |Spelling(t)| == t.end
       && s[t.start..t.end] == Spelling(t) && EndsAt(t, s) {
      SpelledIsLexed(s, t);
    }
  }

  lemma LexIsSpelled(s: bytes, t: Token)
    requires t.start < |s| && s[t.start] == DOLLAR && Lex(s, t.start) == Ok(t)
    ensures NameFits(t) && t.end <= |s| && s[t.start..t.end] == Spelling(t) && EndsAt(t, s)
  {
    LexFits(s, t);
    var d := DollarRun(s, t.start, 4);
    AtLeastOne(s, t.start);
    DollarsThenRest(s, t.start, d, t.end);
    hide DollarRun, IdentEnd, IsIdentStart, IsIdentCont, NameFits, EndsAt;
  }

  lemma LexStep(s: bytes, start: nat)
    requires start < |s| && s[start] == DOLLAR
    ensures var dollars := DollarRun(s, start, 4);
            && (dollars == 1 ==> Lex(s, start) == LexName(s, start, start + 1, KindNode, KindNodeWild, BareDollar))
            && (dollars == 2 ==> Lex(s, start) == Ok(Token([], KindLiteralDollar, start, start + 2)))
            && (dollars == 3 ==> Lex(s, start) == LexName(s, start, start + 3, KindSeq, KindSeqWild, TripleDollar))
            && (dollars !in {1, 2, 3} ==> Lex(s, start).Err?)
  {
    hide DollarRun, LexName;
  }

  lemma LexFits(s: bytes, t: Token)
    requires t.start < |s| && s[t.start] == DOLLAR && Lex(s, t.start) == Ok(t)
    ensures NameFits(t) && t.end <= |s| && EndsAt(t, s)
    ensures t.start + DollarRun(s, t.start, 4) <= t.end && 1 <= DollarRun(s, t.start, 4) <= 3
  {
    var d := DollarRun(s, t.start, 4);
    AtLeastOne(s, t.start);
    LexStep(s, t.start);
    hide DollarRun, Lex, LexName, NameFits, EndsAt;
    if d == 2 {
      NamelessFits(t);
      EscapeEnds(s, t);
    } else if d == 1 {
      LexNameFits(s, t, t.start + 1, KindNode, KindNodeWild, BareDollar);
    } else {
      LexNameFits(s, t, t.start + 3, KindSeq, KindSeqWild, TripleDollar);
    }
  }

  lemma EscapeEnds(s: bytes, t: Token)
    requires t.start < |s| && DollarRun(s, t.start, 4) == 2 && t == Token([], KindLiteralDollar, t.start, t.start + 2)
    ensures EndsAt(t, s)
  {
    hide DollarRun;
  }

  lemma LexNameFits(s: bytes, t: Token, tail: nat, named: PlaceholderKind, wild: PlaceholderKind,
          bare: DslError)
    requires t.start < tail <= |s| && LexName(s, t.start, tail, named, wild, bare) == Ok(t)
    requires (named == KindNode && wild == KindNodeWild) || (named == KindSeq && wild == KindSeqWild)
    ensures NameFits(t) && EndsAt(t, s) && tail <= t.end <= |s|
  {
    hide IdentEnd, IsIdentStart, IsIdentCont, NameFits;
    if s[tail] == UNDERSCORE {
      NamelessFits(t);
    } else {
      NamedFits(s, t, tail);
    }
  }

  lemma NamelessFits(t: Token)
    requires t.name == [] && !t.kind.KindNode? && !t.kind.KindSeq?
    ensures NameFits(t)
  {
  }

  lemma DollarsThenRest(s: bytes, i: nat, d: nat, e: nat)
    requires 1 <= d <= 3 && i + d <= e <= |s| && forall k | i <= k < i + d :: s[k] == DOLLAR
    ensures s[i..e] == (if d == 1 then [DOLLAR] else if d == 2 then [DOLLAR, DOLLAR] else [DOLLAR, DOLLAR, DOLLAR]) + s[i + d..e]
  {
    assert s[i..e] == s[i..i + d] + s[i + d..e];
  }

  lemma NamedFits(s: bytes, t: Token, tail: nat)
    requires tail < |s| && IsIdentStart(s[tail]) && s[tail] != UNDERSCORE
    requires t.kind.KindNode? || t.kind.KindSeq?
    requires t.end == IdentEnd(s, tail + 1) && t.name == s[tail..t.end]
    ensures NameFits(t)
  {
    hide IdentEnd;
    forall k | 0 <= k < |t.name| ensures IsIdentCont(t.name[k]) {
      assert t.name[k] == s[tail + k];
    }
  }

  /** How many dollars a placeholder starts with. */
  function Sigils(t: Token): nat {
    if t.kind.KindLiteralDollar? then 2 else if t.kind.KindNode? || t.kind.KindNodeWild? then 1 else 3
  }

  lemma SpellingParts(t: Token)
    requires NameFits(t)
    ensures !t.kind.KindLiteralDollar? ==> Sigils(t) < |Spelling(t)| && Spelling(t)[Sigils(t)] != DOLLAR
    ensures Sigils(t) <= |Spelling(t)| && forall k | 0 <= k < Sigils(t) :: Spelling(t)[k] == DOLLAR
    ensures t.kind.KindNode? || t.kind.KindSeq? ==> Spelling(t)[Sigils(t)..] == t.name
    ensures t.kind.KindNodeWild? || t.kind.KindSeqWild? ==> |Spelling(t)| == Sigils(t) + 1 && Spelling(t)[Sigils(t)] == UNDERSCORE
    ensures t.kind.KindLiteralDollar? ==> |Spelling(t)| == 2
  {
  }

  lemma SpelledIsLexed(s: bytes, t: Token)
    requires t.start < |s| && NameFits(t) && t.end <= |s| && t.start + |Spelling(t)| == t.end
    requires s[t.start..t.end] == Spelling(t) && EndsAt(t, s)
    ensures s[t.start] == DOLLAR && Lex(s, t.start) == Ok(t)
  {
    SpellingParts(t);
    hide Spelling, DollarRun, IdentEnd, IsIdentStart, IsIdentCont, Lex;
    var d, sp := Sigils(t), Spelling(t);
    forall k | t.start <= k < t.end ensures s[k] == sp[k - t.start] {
      assert s[k] == s[t.start..t.end][k - t.start];
    }
    RunIs(s, t.start, d, 4);
    if t.kind.KindNode? || t.kind.KindSeq? {
      assert s[t.start..t.end][d..] == t.name;
      SliceOfSlice(s, t.start, t.end, t.start + d, t.end);
      NamedLexes(s, t, d);
    } else {
      NamelessLexes(s, t, d);
    }
  }

  lemma {:induction false} NamedLexes(s: bytes, t: Token, d: nat)
    requires t.start < |s| && s[t.start] == DOLLAR && DollarRun(s, t.start, 4) == d && d == Sigils(t)
    requires (t.kind.KindNode? || t.kind.KindSeq?) && NameFits(t) && EndsAt(t, s)
    requires t.start + d <= t.end <= |s| && s[t.start + d..t.end] == t.name
    ensures Lex(s, t.start) == Ok(t)
  {
    hide DollarRun, IsIdentStart, IsIdentCont;
    assert s[t.start + d] == t.name[0];
    forall k | t.start + d < k < t.end ensures IsIdentCont(s[k]) {
      assert s[k] == t.name[k - t.start - d];
    }
    IdentEndIs(s, t.start + d + 1, t.end);
    hide IdentEnd;
  }

  lemma NamelessLexes(s: bytes, t: Token, d: nat)
    requires t.start < |s| && s[t.start] == DOLLAR && DollarRun(s, t.start, 4) == d && d == Sigils(t)
    requires !t.kind.KindNode? && !t.kind.KindSeq? && t.name == []
    requires t.kind.KindLiteralDollar? ==> t.end == t.start + 2
    requires !t.kind.KindLiteralDollar? ==> t.start + d + 1 == t.end <= |s| && s[t.start + d] == UNDERSCORE
    ensures Lex(s, t.start) == Ok(t)
  {
    hide DollarRun, IsIdentStart, IsIdentCont, IdentEnd;
  }

  lemma {:induction false} RunIs(s: bytes, i: nat, d: nat, cap: nat)
    requires d < cap && i + d <= |s| && (forall k | i <= k < i + d :: s[k] == DOLLAR)
    requires i + d < |s| ==> s[i + d] != DOLLAR
    ensures DollarRun(s, i, cap) == d
    decreases d
  {
    if d > 0 {
      RunIs(s, i + 1, d - 1, cap - 1);
    }
  }

  // ----- the pattern reader -----

  function LexAll(s: bytes, i: nat): Result<seq<Token>, DslError>
    requires i <= |s|
    decreases |s| - i
  {
    if i == |s| then Ok([])
    else if s[i] != DOLLAR then LexAll(s, i + 1)
    else
      match Lex(s, i)
      case Err(e) => Err(e)
      case Ok(t) =>
        match LexAll(s, t.end)
        case Err(e) => Err(e)
        case Ok(ts) => Ok([t] + ts)
  }

  function ParsePattern(s: bytes): Result<seq<Token>, DslError> {
    if Trim(s) == [] then Err(EmptyPattern)
    else if RAW_PREFIX <= Trim(s) then Err(TreeSitterPrefix)
    else LexAll(s, 0)
  }

  method Parse(s: bytes) returns (r: Result<seq<Token>, DslError>)
    ensures r == ParsePattern(s)
  {
    hide Trim;
    if Trim(s) == [] {
      return Err(EmptyPattern);
    }
    if RAW_PREFIX <= Trim(s) {
      return Err(TreeSitterPrefix);
    }
    hide LexAll, Lex;
    var phs: seq<Token> := [];
    var i := 0;
    AfterNothing(LexAll(s, 0));
    LexAllStep(s, |s|);
    while i < |s|
      invariant 0 <= i <= |s|
      invariant LexAll(s, 0) == After(phs, LexAll(s, i))
    {
      LexAllStep(s, i);
      if s[i] != DOLLAR {
        i := i + 1;
        continue;
      }
      var t := LexPlaceholder(s, i);
      if t.Err? {
        return Err(t.error);
      }
      AfterOne(phs, t.value, LexAll(s, t.value.end));
      phs := phs + [t.value];
      i := t.value.end;
    }
    assert phs + [] == phs;
    return Ok(phs);
  }

  function After(phs: seq<Token>, r: Result<seq<Token>, DslError>): Result<seq<Token>, DslError> {
    if r.Ok? then Ok(phs + r.value) else r
  }

  lemma AfterNothing(r: Result<seq<Token>, DslError>)
    ensures After([], r) == r
  {
    assert r.Ok? ==> [] + r.value == r.value;
  }

  lemma AfterOne(phs: seq<Token>, t: Token, r: Result<seq<Token>, DslError>)
    ensures After(phs, After([t], r)) == After(phs + [t], r)
  {
    assert r.Ok? ==> phs + ([t] + r.value) == (phs + [t]) + r.value;
  }

  lemma LexAllStep(s: bytes, i: nat)
    requires i <= |s|
    ensures LexAll(s, i) == if i == |s| then Ok([])
                            else if s[i] != DOLLAR then LexAll(s, i + 1)
                            else if Lex(s, i).Err? then Err(Lex(s, i).error)
                            else After([Lex(s, i).value], LexAll(s, Lex(s, i).value.end))
  {
    hide Lex;
  }

  predicate NoDollar(s: bytes, lo: nat, hi: nat) {
    forall k | lo <= k < hi && k < |s| :: s[k] != DOLLAR
  }

  /** The tokens stand in order from `i` on, each is the placeholder its first dollar starts, and
      every dollar of the source lies in one of them. */
  predicate Tiled(s: bytes, ts: seq<Token>, i: nat)
    decreases |ts|
  {
    && i <= |s|
    && if ts == [] then NoDollar(s, i, |s|)
       else
         && i <= ts[0].start < |s| && s[ts[0].start] == DOLLAR && NoDollar(s, i, ts[0].start)
         && Lex(s, ts[0].start) == Ok(ts[0])
         && Tiled(s, ts[1..], ts[0].end)
  }

  lemma {:induction false} LexAllIffTiled(s: bytes, i: nat, ts: seq<Token>)
    requires i <= |s|
    ensures LexAll(s, i) == Ok(ts) <==> Tiled(s, ts, i)
    decreases |s| - i
  {
    hide Lex;
    if i < |s| {
      if s[i] != DOLLAR {
        LexAllIffTiled(s, i + 1, ts);
      } else if Lex(s, i).Ok? {
        var t := Lex(s, i).value;
        if ts != [] {
          assert ts == [ts[0]] + ts[1..];
          LexAllIffTiled(s, t.end, ts[1..]);
          if LexAll(s, i) == Ok(ts) {
            assert ts[1..] == LexAll(s, t.end).value;
          }
        }
      }
    }
  }

  // ----- the template reader -----

  /** What a placeholder stands for in a replacement. */
  function Piece(t: Token, caps: map<bytes, Capture>): Result<bytes, TemplateError> {
    match t.kind
    case KindNode => if t.name in caps then Ok(caps[t.name].text) else Err(UnboundCapture(t.name))
    case KindSeq => if t.name in caps then Ok(caps[t.name].text) else Err(UnboundCapture(t.name))
    case KindLiteralDollar => Ok([DOLLAR])
    case _ => Err(WildcardReference)
  }

  function Render(s: bytes, i: nat, caps: map<bytes, Capture>): Result<bytes, TemplateError>
    requires i <= |s|
    decreases |s| - i
  {
    if i == |s| then Ok([])
    else if s[i] != DOLLAR then Prepend([s[i]], Render(s, i + 1, caps))
    else
      match Lex(s, i)
      case Err(e) => Err(Lexing(e))
      case Ok(t) =>
        match Piece(t, caps)
        case Err(e) => Err(e)
        case Ok(p) => Prepend(p, Render(s, t.end, caps))
  }

  function Prepend(p: bytes, r: Result<bytes, TemplateError>): Result<bytes, TemplateError> {
    if r.Ok? then Ok(p + r.value) else r
  }

  function Interpolated(template: bytes, caps: map<bytes, Capture>): Result<bytes, TemplateError> {
    Render(template, 0, caps)
  }

  method InterpolateTemplate(template: bytes, caps: map<bytes, Capture>)
    returns (r: Result<bytes, TemplateError>)
    ensures r == Interpolated(template, caps)
  {
    hide Render, Lex, DollarRun;
    var b: bytes := [];
    var n := |template|;
    var i := 0;
    PrependNothing(Render(template, 0, caps));
    RenderStep(template, n, caps);
    while i < n
      invariant 0 <= i <= n
      invariant Render(template, 0, caps) == Prepend(b, Render(template, i, caps))
    {
      RenderStep(template, i, caps);
      if template[i] != DOLLAR {
        PrependTwice(b, [template[i]], Render(template, i + 1, caps));
        b := b + [template[i]];
        i := i + 1;
        continue;
      }
      var dollars := CountDollars(template, i);
      LexEscape(template, i);
      if dollars == 2 {
        PrependTwice(b, [DOLLAR], Render(template, i + 2, caps));
        b := b + [DOLLAR];
        i := i + 2;
        continue;
      }
      var t := LexPlaceholder(template, i);
      if t.Err? {
        return Err(Lexing(t.error));
      }
      if t.value.kind.KindNodeWild? || t.value.kind.KindSeqWild? {
        return Err(WildcardReference);
      }
      if t.value.name !in caps {
        return Err(UnboundCapture(t.value.name));
      }
      var text := caps[t.value.name].text;
      PrependTwice(b, text, Render(template, t.value.end, caps));
      b := b + text;
      i := t.value.end;
    }
    assert b + [] == b;
    return Ok(b);
  }

  lemma LexEscape(s: bytes, i: nat)
    requires i < |s| && s[i] == DOLLAR
    ensures DollarRun(s, i, 4) == 2 <==> Lex(s, i).Ok? && Lex(s, i).value.kind.KindLiteralDollar?
    ensures DollarRun(s, i, 4) == 2 ==> Lex(s, i) == Ok(Token([], KindLiteralDollar, i, i + 2))
  {
    hide DollarRun;
  }

  lemma RenderStep(s: bytes, i: nat, caps: map<bytes, Capture>)
    requires i <= |s|
    ensures Render(s, i, caps)
         == if i == |s| then Ok([])
            else if s[i] != DOLLAR then Prepend([s[i]], Render(s, i + 1, caps))
            else if Lex(s, i).Err? then Err(Lexing(Lex(s, i).error))
            else if Piece(Lex(s, i).value, caps).Err? then Err(Piece(Lex(s, i).value, caps).error)
            else Prepend(Piece(Lex(s, i).value, caps).value, Render(s, Lex(s, i).value.end, caps))
  {
    hide Lex, Piece;
  }

  lemma PrependNothing(r: Result<bytes, TemplateError>)
    ensures Prepend([], r) == r
  {
    assert r.Ok? ==> [] + r.value == r.value;
  }

  lemma PrependTwice(a: bytes, b: bytes, r: Result<bytes, TemplateError>)
    ensures Prepend(a, Prepend(b, r)) == Prepend(a + b, r)
  {
    if r.Ok? {
      assert a + (b + r.value) == a + b + r.value;
    }
  }

  predicate Usable(t: Token, caps: map<bytes, Capture>) {
    Piece(t, caps).Ok?
  }

  predicate AllUsable(ts: seq<Token>, caps: map<bytes, Capture>) {
    forall t | t in ts :: Usable(t, caps)
  }

  lemma NothingUsable(caps: map<bytes, Capture>)
    ensures AllUsable([], caps)
  {
  }

  lemma AllUsableCons(t: Token, ts: seq<Token>, caps: map<bytes, Capture>)
    ensures AllUsable([t] + ts, caps) <==> Usable(t, caps) && AllUsable(ts, caps)
  {
    assert t in [t] + ts;
    assert forall x | x in ts :: x in [t] + ts;
    assert forall x | x in [t] + ts :: x == t || x in ts;
  }

  /** The literal gaps of the source from `i` on, joined with what the placeholders stand for. */
  function Joined(s: bytes, ts: seq<Token>, i: nat, piece: Token -> bytes): bytes
    decreases |ts|
  {
    if ts == [] then Slice(s, i, |s|)
    else Slice(s, i, ts[0].start) + piece(ts[0]) + Joined(s, ts[1..], ts[0].end, piece)
  }

  function PieceText(caps: map<bytes, Capture>): Token -> bytes {
    t => if Usable(t, caps) then Piece(t, caps).value else []
  }

  /** The template reader succeeds exactly when the pattern reader does and every placeholder is an
      escape or a bound, named capture; it then renders the gaps and the captures' texts in order. */
  lemma {:induction false} RenderIsJoined(s: bytes, i: nat, caps: map<bytes, Capture>)
    requires i <= |s|
    ensures var toks := LexAll(s, i);
            && (Render(s, i, caps).Ok? <==> toks.Ok? && AllUsable(toks.value, caps))
            && (Render(s, i, caps).Ok? ==> Render(s, i, caps).value == Joined(s, toks.value, i, PieceText(caps)))
    decreases |s| - i
  {
    hide Render, LexAll, Lex, Piece, Joined, AllUsable;
    RenderStep(s, i, caps);
    LexAllStep(s, i);
    var piece := PieceText(caps);
    if i == |s| {
      JoinedStep(s, [], i, piece);
      NothingUsable(caps);
    } else if s[i] != DOLLAR {
      RenderIsJoined(s, i + 1, caps);
      if LexAll(s, i).Ok? {
        GapGrowsJoined(s, LexAll(s, i).value, i, piece);
      }
    } else if Lex(s, i).Ok? {
      var t := Lex(s, i).value;
      RenderIsJoined(s, t.end, caps);
      if LexAll(s, t.end).Ok? {
        var rest := LexAll(s, t.end).value;
        JoinedStep(s, [t] + rest, i, piece);
        AllUsableCons(t, rest, caps);
        assert ([t] + rest)[1..] == rest;
        assert Slice(s, i, i) + piece(t) == piece(t);
      }
    }
  }

  lemma JoinedStep(s: bytes, ts: seq<Token>, i: nat, piece: Token -> bytes)
    ensures Joined(s, ts, i, piece)
         == if ts == [] then Slice(s, i, |s|)
            else Slice(s, i, ts[0].start) + piece(ts[0]) + Joined(s, ts[1..], ts[0].end, piece)
  {
  }

  lemma GapGrowsJoined(s: bytes, ts: seq<Token>, i: nat, piece: Token -> bytes)
    requires i < |s| && s[i] != DOLLAR && LexAll(s, i + 1) == Ok(ts)
    ensures Joined(s, ts, i, piece) == [s[i]] + Joined(s, ts, i + 1, piece)
  {
    hide Joined, LexAll, Lex;
    LexAllIffTiled(s, i + 1, ts);
    JoinedStep(s, ts, i, piece);
    JoinedStep(s, ts, i + 1, piece);
    if ts == [] {
      assert s[i..] == [s[i]] + s[i + 1..];
    } else {
      GapGrows(s, i, ts[0].start, piece(ts[0]), Joined(s, ts[1..], ts[0].end, piece));
    }
  }

  lemma GapGrows(s: bytes, i: nat, j: nat, p: bytes, rest: bytes)
    requires i < j <= |s|
    ensures [s[i]] + (Slice(s, i + 1, j) + p + rest) == Slice(s, i, j) + p + rest
  {
    assert s[i..j] == [s[i]] + s[i + 1..j];
  }

  /** The two readers agree on every template the pattern reader does not refuse outright. */
  lemma TwoReadersAgree(s: bytes, caps: map<bytes, Capture>)
    requires Trim(s) != [] && !(RAW_PREFIX <= Trim(s))
    ensures var toks := ParsePattern(s);
            && (Interpolated(s, caps).Ok? <==> toks.Ok? && AllUsable(toks.value, caps))
            && (Interpolated(s, caps).Ok? ==>
                  Interpolated(s, caps).value == Joined(s, toks.value, 0, PieceText(caps)))
            && (toks.Ok? ==> Tiled(s, toks.value, 0))
  {
    hide Render, LexAll, Tiled, Joined, Trim;
    RenderIsJoined(s, 0, caps);
    if ParsePattern(s).Ok? {
      LexAllIffTiled(s, 0, ParsePattern(s).value);
    }
  }
}
