/**
 The four records one match attempt accumulates: named bindings, the pattern-to-source alignment of
 literal tokens, the pattern spans a promotion dropped, and the source spans of skipped comments.
 All but the bindings are append-only and are truncated back when a speculative try is abandoned.
 */
module MatchRecords {
  import opened Bytes
  import opened Outcomes
  import opened SyntaxTree

  /** The reserved name "match". */
  const OUTER: bytes := [0x6D, 0x61, 0x74, 0x63, 0x68]

  /** The engine-internal name "$match". */
  const IMPLICIT: bytes := [DOLLAR] + OUTER

  /** A bound source span. A sequence has children and no kind; an empty sequence has no position. */
  datatype Capture = Capture(text: bytes, kind: string, line: nat, start: nat, end: nat,
                             children: seq<Capture>)

  datatype TokenAlign = TokenAlign(patStart: nat, patEnd: nat, srcStart: nat, srcEnd: nat)

  function NodeToCapture(n: Node, src: bytes): Capture {
    Capture(Text(n, src), n.kind, n.row + 1, n.start, n.end, [])
  }

  function NamedCaptures(ns: seq<Node>, src: bytes): seq<Capture> {
    if ns == [] then []
    else (if ns[0].named then [NodeToCapture(ns[0], src)] else []) + NamedCaptures(ns[1..], src)
  }

  /** The verbatim span of a sibling run; its children are the named siblings only. */
  function SeqToCapture(ns: seq<Node>, src: bytes): Capture {
    if ns == [] then Capture([], "", 0, 0, 0, [])
    else
      var first, last := ns[0], ns[|ns| - 1];
      Capture(Slice(src, first.start, last.end), "", first.row + 1, first.start, last.end,
              NamedCaptures(ns, src))
  }

  /** The spans of a promoted chain's top node lying outside its placeholder leaf. */
  function DroppedSpans(top: Node, c: Chain): seq<Range> {
    if c.depth == 0 then []
    else
      (if c.leaf.start > top.start then [Range(top.start, c.leaf.start)] else [])
      + (if c.leaf.end < top.end then [Range(c.leaf.end, top.end)] else [])
  }

  lemma Regroup<T>(a: seq<T>, b: seq<T>, c: seq<T>)
    ensures a + (b + c) == a + b + c
  {
  }

  lemma {:induction false} NamedCapturesAppend(ns: seq<Node>, c: Node, src: bytes)
    ensures NamedCaptures(ns + [c], src)
         == NamedCaptures(ns, src) + (if c.named then [NodeToCapture(c, src)] else [])
  {
    hide NodeToCapture;
    if ns == [] {
      assert [] + [c] == [c];
    } else {
      assert (ns + [c])[0] == ns[0] && (ns + [c])[1..] == ns[1..] + [c];
      NamedCapturesAppend(ns[1..], c, src);
      Regroup(if ns[0].named then [NodeToCapture(ns[0], src)] else [], NamedCaptures(ns[1..], src),
              if c.named then [NodeToCapture(c, src)] else []);
    }
  }

  /** The four records as one value. */
  datatype Records = Records(byName: map<bytes, Capture>, aligns: seq<TokenAlign>, dropped: seq<Range>,
                             comments: seq<Range>)

  class Captures {
    var byName: map<bytes, Capture>
    var aligns: seq<TokenAlign>
    var dropped: seq<Range>
    var comments: seq<Range>

    ghost function Snap(): Records
      reads this
    {
      Records(byName, aligns, dropped, comments)
    }

    constructor ()
      ensures byName == map[] && aligns == [] && dropped == [] && comments == []
    {
      byName, aligns, dropped, comments := map[], [], [], [];
    }

    /** Clears every record so that the accumulator can serve the next candidate node. */
    method Reset()
      modifies this
      ensures byName == map[] && aligns == [] && dropped == [] && comments == []
    {
      while byName.Keys != {}
        decreases |byName.Keys|
      {
        var k :| k in byName.Keys;
        var shorter := byName - {k};
        assert shorter.Keys == byName.Keys - {k};
        byName := shorter;
      }
      aligns, dropped, comments := [], [], [];
    }

    method BindNode(name: bytes, n: Node, src: bytes)
      modifies this`byName
      ensures byName == if name == [] then old(byName) else old(byName)[name := NodeToCapture(n, src)]
    {
      if name == [] {
        return;
      }
      byName := byName[name := NodeToCapture(n, src)];
    }

    method BindSeq(name: bytes, siblings: seq<Node>, src: bytes)
      modifies this`byName
      ensures byName == if name == [] then old(byName) else old(byName)[name := SeqToCapture(siblings, src)]
    {
      if name == [] {
        return;
      }
      var cap := Capture([], "", 0, 0, 0, []);
      if |siblings| > 0 {
        var first, last := siblings[0], siblings[|siblings| - 1];
        var children: seq<Capture> := [];
        for i := 0 to |siblings|
          invariant children == NamedCaptures(siblings[..i], src)
          invariant byName == old(byName)
        {
          NamedCapturesAppend(siblings[..i], siblings[i], src);
          assert siblings[..i + 1] == siblings[..i] + [siblings[i]];
          if !siblings[i].named {
            continue;
          }
          children := children + [NodeToCapture(siblings[i], src)];
        }
        assert siblings[..|siblings|] == siblings;
        cap := Capture(Slice(src, first.start, last.end), "", first.row + 1, first.start, last.end, children);
      }
      byName := byName[name := cap];
    }

    method RecordAlignRange(p: Node, srcStart: nat, srcEnd: nat)
      modifies this`aligns
      ensures aligns == old(aligns) + [TokenAlign(p.start, p.end, srcStart, srcEnd)]
    {
      aligns := aligns + [TokenAlign(p.start, p.end, srcStart, srcEnd)];
    }

    method RecordDropped(top: Node, chain: Chain)
      modifies this`dropped
      ensures dropped == old(dropped) + DroppedSpans(top, chain)
    {
      if chain.depth == 0 {
        return;
      }
      if chain.leaf.start > top.start {
        dropped := dropped + [Range(top.start, chain.leaf.start)];
      }
      if chain.leaf.end < top.end {
        dropped := dropped + [Range(chain.leaf.end, top.end)];
      }
    }

    method RecordComment(t: Node)
      modifies this`comments
      ensures comments == old(comments) + [Range(t.start, t.end)]
    {
      comments := comments + [Range(t.start, t.end)];
    }

    /** Truncates the three append-only records back to the marked lengths. */
    method Rollback(alignMark: nat, dropMark: nat, commentMark: nat)
      modifies this`aligns, this`dropped, this`comments
      ensures aligns == if alignMark <= |old(aligns)| then old(aligns)[..alignMark] else old(aligns)
      ensures dropped == if dropMark <= |old(dropped)| then old(dropped)[..dropMark] else old(dropped)
      ensures comments == if commentMark <= |old(comments)| then old(comments)[..commentMark] else old(comments)
    {
      if alignMark <= |aligns| {
        aligns := aligns[..alignMark];
      }
      if dropMark <= |dropped| {
        dropped := dropped[..dropMark];
      }
      if commentMark <= |comments| {
        comments := comments[..commentMark];
      }
    }

    /** The entry under a name before a try, `None` when there was none. */
    method SaveBinding(name: bytes) returns (saved: Option<Capture>)
      ensures saved == if name != [] && name in byName then Some(byName[name]) else None
    {
      if name == [] || name !in byName {
        return None;
      }
      return Some(byName[name]);
    }

    method RestoreBinding(name: bytes, saved: Option<Capture>)
      modifies this`byName
      ensures byName == if name == [] then old(byName)
                        else if saved.None? then old(byName) - {name}
                        else old(byName)[name := saved.value]
    {
      if name == [] {
        return;
      }
      if saved.None? {
        byName := byName - {name};
        return;
      }
      byName := byName[name := saved.value];
    }

    /** The skipped comments lying inside the matched span. */
    method CopyComments(lo: nat, hi: nat) returns (out: seq<Range>)
      ensures out == CommentsWithin(comments, lo, hi)
    {
      out := [];
      for i := 0 to |comments|
        invariant out == CommentsWithin(comments[..i], lo, hi)
      {
        var r := comments[i];
        assert comments[..i + 1] == comments[..i] + [r];
        CommentsWithinAppend(comments[..i], r, lo, hi);
        if r.start >= lo && r.end <= hi {
          out := out + [r];
        }
      }
      assert comments[..|comments|] == comments;
    }
  }

  function CommentsWithin(cs: seq<Range>, lo: nat, hi: nat): seq<Range> {
    if cs == [] then []
    else (if cs[0].start >= lo && cs[0].end <= hi then [cs[0]] else []) + CommentsWithin(cs[1..], lo, hi)
  }

  lemma {:induction false} CommentsWithinAppend(cs: seq<Range>, r: Range, lo: nat, hi: nat)
    ensures CommentsWithin(cs + [r], lo, hi)
         == CommentsWithin(cs, lo, hi) + (if r.start >= lo && r.end <= hi then [r] else [])
  {
    if cs == [] {
      assert [] + [r] == [r];
    } else {
      assert (cs + [r])[1..] == cs[1..] + [r];
      CommentsWithinAppend(cs[1..], r, lo, hi);
    }
  }
}
