/**
 The compile-time refusal of a placeholder inside a node that is compared as whole text, and how much of
 what the matcher relies on it establishes.
 */
module OpaqueCheck {
  import opened Bytes
  import opened Outcomes
  import opened SyntaxTree
  import opened Derivations
  import opened PatternNames
  import opened TraceOrder

  predicate PartAt(text: bytes, part: bytes, i: nat) {
    i + |part| <= |text| && text[i..i + |part|] == part
  }

  predicate Contains(text: bytes, part: bytes) {
    exists i | 0 <= i <= |text| :: PartAt(text, part, i)
  }

  /** The replacement lies in the node's text and is not all of it. */
  predicate Offends(pt: PatternTree, n: Node, replacement: bytes) {
    && IsOpaque(pt, n.kind) && n.start < n.end <= |pt.source|
    && Text(n, pt.source) != replacement && Contains(Text(n, pt.source), replacement)
  }

  datatype Offence = Offence(kind: string, sub: nat)

  /** The first replacement from `i` on that offends at the node. */
  function FirstSub(pt: PatternTree, n: Node, subs: seq<bytes>, i: nat): Option<Offence>
    requires i <= |subs|
    decreases |subs| - i
  {
    if i == |subs| then None
    else if Offends(pt, n, subs[i]) then Some(Offence(n.kind, i))
    else FirstSub(pt, n, subs, i + 1)
  }

  /** The first offence in pre-order, anonymous nodes included. */
  function FirstOffence(pt: PatternTree, n: Node, subs: seq<bytes>): Option<Offence>
    decreases n, 1
  {
    if FirstSub(pt, n, subs, 0).Some? then FirstSub(pt, n, subs, 0) else FirstAmong(pt, n.children, subs)
  }

  function FirstAmong(pt: PatternTree, ns: seq<Node>, subs: seq<bytes>): Option<Offence>
    decreases ns, 0
  {
    if ns == [] then None
    else if FirstOffence(pt, ns[0], subs).Some? then FirstOffence(pt, ns[0], subs)
    else FirstAmong(pt, ns[1..], subs)
  }

  method FindPart(text: bytes, part: bytes) returns (r: bool)
    ensures r == Contains(text, part)
  {
    var i := 0;
    while i + |part| <= |text|
      invariant forall j | 0 <= j < i :: !PartAt(text, part, j)
    {
      if text[i..i + |part|] == part {
        assert PartAt(text, part, i);
        return true;
      }
      i := i + 1;
    }
    return false;
  }

  method CheckNode(pt: PatternTree, n: Node, subs: seq<bytes>) returns (found: Option<Offence>)
    ensures found == FirstSub(pt, n, subs, 0)
  {
    hide Contains;
    var looked := IsOpaque(pt, n.kind) && n.start < n.end <= |pt.source|;
    if !looked {
      NothingOffends(pt, n, subs, 0);
      return None;
    }
    var text := pt.source[n.start..n.end];
    for i := 0 to |subs|
      invariant FirstSub(pt, n, subs, i) == FirstSub(pt, n, subs, 0)
    {
      var inside := FindPart(text, subs[i]);
      if text == subs[i] || !inside {
        continue;
      }
      return Some(Offence(n.kind, i));
    }
    return None;
  }

  lemma NothingOffends(pt: PatternTree, n: Node, subs: seq<bytes>, i: nat)
    requires !(IsOpaque(pt, n.kind) && n.start < n.end <= |pt.source|) && i <= |subs|
    ensures FirstSub(pt, n, subs, i).None?
    decreases |subs| - i
  {
    if i < |subs| {
      NothingOffends(pt, n, subs, i + 1);
    }
  }

  /** Walks the whole tree, stopping at the first offence. */
  method Walk(pt: PatternTree, n: Node, subs: seq<bytes>) returns (found: Option<Offence>)
    ensures found == FirstOffence(pt, n, subs)
    decreases n
  {
    hide FirstSub;
    found := CheckNode(pt, n, subs);
    if found.Some? {
      return;
    }
    assert n.children[0..] == n.children;
    for i := 0 to |n.children|
      invariant FirstAmong(pt, n.children[i..], subs) == FirstAmong(pt, n.children, subs)
    {
      assert n.children[i..][1..] == n.children[i + 1..];
      found := Walk(pt, n.children[i], subs);
      if found.Some? {
        return;
      }
    }
    found := None;
  }

  /** The check of one compiled variant. */
  method CheckNoPlaceholderInside(pt: PatternTree, root: Node, subs: seq<bytes>) returns (found: Option<Offence>)
    ensures found == FirstOffence(pt, root, subs)
    ensures found.None? <==> forall n, r | Under(root, n) && r in subs :: !Offends(pt, n, r)
  {
    hide FirstOffence, Under, Offends;
    CleanIff(pt, root, subs);
    if |subs| == 0 || |pt.cfg.opaqueKinds| == 0 {
      forall n, r | Under(root, n) && r in subs ensures !Offends(pt, n, r) {
        NoKindOffends(pt, n, r);
      }
      return None;
    }
    found := Walk(pt, root, subs);
  }

  lemma NoKindOffends(pt: PatternTree, n: Node, r: bytes)
    requires |pt.cfg.opaqueKinds| == 0
    ensures !Offends(pt, n, r)
  {
  }

  lemma {:induction false} FirstSubIff(pt: PatternTree, n: Node, subs: seq<bytes>, i: nat)
    requires i <= |subs|
    ensures FirstSub(pt, n, subs, i).None? <==> forall k | i <= k < |subs| :: !Offends(pt, n, subs[k])
    decreases |subs| - i
  {
    hide Offends;
    if i < |subs| {
      FirstSubIff(pt, n, subs, i + 1);
    }
  }

  lemma {:induction false} CleanIff(pt: PatternTree, n: Node, subs: seq<bytes>)
    ensures FirstOffence(pt, n, subs).None? <==> forall x, r | Under(n, x) && r in subs :: !Offends(pt, x, r)
    decreases n, 1
  {
    hide Offends, FirstSub;
    FirstSubIff(pt, n, subs, 0);
    CleanAmong(pt, n.children, subs);
    if FirstOffence(pt, n, subs).None? {
      forall x, r | Under(n, x) && r in subs ensures !Offends(pt, x, r) {
        if x != n {
          var i :| 0 <= i < |n.children| && Under(n.children[i], x);
        }
      }
    } else if FirstSub(pt, n, subs, 0).None? {
      var i, x, r :| 0 <= i < |n.children| && Under(n.children[i], x) && r in subs && Offends(pt, x, r);
      assert Under(n, x);
    } else {
      assert Under(n, n);
    }
  }

  lemma {:induction false} CleanAmong(pt: PatternTree, ns: seq<Node>, subs: seq<bytes>)
    ensures FirstAmong(pt, ns, subs).None?
       <==> forall i, x, r | 0 <= i < |ns| && Under(ns[i], x) && r in subs :: !Offends(pt, x, r)
    decreases ns, 0
  {
    hide Offends, FirstOffence, Under;
    if ns != [] {
      CleanIff(pt, ns[0], subs);
      CleanAmong(pt, ns[1..], subs);
      assert forall i | 0 < i < |ns| :: ns[i] == ns[1..][i - 1];
      if FirstAmong(pt, ns, subs).Some? && FirstOffence(pt, ns[0], subs).None? {
        var i, x, r :| 0 <= i < |ns[1..]| && Under(ns[1..][i], x) && r in subs && Offends(pt, x, r);
        assert Under(ns[i + 1], x);
      }
    }
  }

  // ----- what it establishes -----

  /** A placeholder carries the text of a replacement. */
  predicate Replaced(pt: PatternTree, subs: seq<bytes>) {
    forall r | r in pt.placeholders :: Slice(pt.source, r.start, r.end) in subs
  }

  /** An anonymous node is a leaf and carries no placeholder. */
  predicate NamedOrLeaf(pt: PatternTree, n: Node) {
    n.named || (n.children == [] && Lookup(pt, n).None?)
  }

  /** The node is compared as whole text. */
  predicate ComparedWhole(pt: PatternTree, n: Node) {
    IsOpaque(pt, n.kind) && Reading(pt, n) == n && !IsPlaceholder(pt, n)
  }

  /** A named placeholder below the node is all of its text. */
  ghost predicate WholeText(pt: PatternTree, n: Node) {
    exists c :: Inner(pt, n, c) && c.start == n.start && c.end == n.end
  }

  ghost predicate Inner(pt: PatternTree, n: Node, c: Node) {
    exists i | 0 <= i < |n.children| :: Under(n.children[i], c) && OwnName(pt, c) != []
  }

  lemma {:induction false} NamesAreUnder(pt: PatternTree, n: Node)
    ensures AllNames(pt, n) != [] <==> exists c :: Under(n, c) && OwnName(pt, c) != []
    decreases n, 1
  {
    hide OwnName;
    NamesAreInner(pt, n.children);
    if AllNames(pt, n) != [] {
      if OwnName(pt, n) != [] {
        assert Under(n, n);
      } else {
        var i, c :| 0 <= i < |n.children| && Under(n.children[i], c) && OwnName(pt, c) != [];
        assert Under(n, c);
      }
    }
    if c :| Under(n, c) && OwnName(pt, c) != [] {
      if c != n {
        var i :| 0 <= i < |n.children| && Under(n.children[i], c);
      }
    }
  }

  lemma {:induction false} NamesAreInner(pt: PatternTree, ns: seq<Node>)
    ensures AllNamesOf(pt, ns) != [] <==> exists i, c | 0 <= i < |ns| :: Under(ns[i], c) && OwnName(pt, c) != []
    decreases ns, 0
  {
    hide OwnName, AllNames, Under;
    if ns != [] {
      NamesAreUnder(pt, ns[0]);
      NamesAreInner(pt, ns[1..]);
      if AllNames(pt, ns[0]) == [] && AllNamesOf(pt, ns[1..]) != [] {
        var i, c :| 0 <= i < |ns[1..]| && Under(ns[1..][i], c) && OwnName(pt, c) != [];
        assert Under(ns[i + 1], c);
      }
      if i, c :| 0 <= i < |ns| && Under(ns[i], c) && OwnName(pt, c) != [] {
        if i > 0 {
          assert ns[1..][i - 1] == ns[i];
        }
      }
    }
  }

  lemma {:induction false} UnderInside(top: Node, n: Node)
    requires WellFormed(top) && Under(top, n)
    ensures WellFormed(n) && top.start <= n.start <= n.end <= top.end
    decreases top
  {
    hide Siblings;
    if n != top {
      var i :| 0 <= i < |top.children| && Under(top.children[i], n);
      SiblingsAt(top.children, top.start, top.end, top.children[i]);
      UnderInside(top.children[i], n);
    }
  }

  /** A placeholder inside a node that passed the check is all of the node's text. */
  lemma PassedIsWhole(pt: PatternTree, n: Node, subs: seq<bytes>, c: Node)
    requires WellFormed(n) && n.end <= |pt.source| && Replaced(pt, subs)
    requires IsOpaque(pt, n.kind) && Inner(pt, n, c) && c.start < c.end
    requires forall r | r in subs :: !Offends(pt, n, r)
    ensures c.start == n.start && c.end == n.end
  {
    hide WellFormed, Under, AllNames;
    var i :| 0 <= i < |n.children| && Under(n.children[i], c);
    assert Under(n, n.children[i]) && Under(n, c) by { UnderStep(n, i, c); }
    UnderInside(n, c);
    var r := Slice(pt.source, c.start, c.end);
    assert Range(c.start, c.end) in pt.placeholders;
    PartOfText(pt.source, n.start, n.end, c.start, c.end);
  }

  lemma UnderStep(n: Node, i: nat, c: Node)
    requires i < |n.children| && Under(n.children[i], c)
    ensures Under(n, n.children[i]) && Under(n, c)
  {
    assert Under(n.children[i], n.children[i]);
  }

  lemma PartOfText(s: bytes, lo: nat, hi: nat, a: nat, b: nat)
    requires lo <= a <= b <= hi <= |s|
    ensures Contains(s[lo..hi], s[a..b])
  {
    SliceOfSlice(s, lo, hi, a, b);
    assert PartAt(s[lo..hi], s[a..b], a - lo);
  }

  /** What the matcher relies on, node by node. */
  predicate ClearHere(pt: PatternTree, n: Node) {
    NamedOrLeaf(pt, n) && (ComparedWhole(pt, n) ==> AllNamesOf(pt, n.children) == [])
  }

  lemma {:induction false} ClearIsEverywhere(pt: PatternTree, n: Node)
    ensures Clear(pt, n) <==> forall x | Under(n, x) :: ClearHere(pt, x)
    decreases n, 1
  {
    hide Lookup, IsPlaceholder, IsOpaque, Reading, AllNamesOf;
    ClearAmong(pt, n.children);
    assert Under(n, n);
    if forall x | Under(n, x) :: ClearHere(pt, x) {
      forall i, x | 0 <= i < |n.children| && Under(n.children[i], x) ensures ClearHere(pt, x) {
        assert Under(n, x);
      }
    }
    if Clear(pt, n) {
      forall x | Under(n, x) ensures ClearHere(pt, x) {
        if x != n {
          var i :| 0 <= i < |n.children| && Under(n.children[i], x);
        }
      }
    }
  }

  lemma {:induction false} ClearAmong(pt: PatternTree, ns: seq<Node>)
    ensures ClearAll(pt, ns) <==> forall i, x | 0 <= i < |ns| && Under(ns[i], x) :: ClearHere(pt, x)
    decreases ns, 0
  {
    hide ClearHere, Clear, Under;
    if ns != [] {
      ClearIsEverywhere(pt, ns[0]);
      ClearAmong(pt, ns[1..]);
      assert forall i | 0 < i < |ns| :: ns[i] == ns[1..][i - 1];
      if forall i, x | 0 <= i < |ns| && Under(ns[i], x) :: ClearHere(pt, x) {
        forall i, x | 0 <= i < |ns[1..]| && Under(ns[1..][i], x) ensures ClearHere(pt, x) {
          assert Under(ns[i + 1], x);
        }
      }
    }
  }

  /** On a variant that passed the check, and whose anonymous nodes are leaves, the matcher can rely on what
      it relies on exactly when no node compared as whole text is all placeholder. */
  lemma ClearIffNoWholeText(pt: PatternTree, n: Node, subs: seq<bytes>)
    requires WellFormed(n) && n.end <= |pt.source| && Replaced(pt, subs)
    requires forall r | r in pt.placeholders :: r.start < r.end
    requires FirstOffence(pt, n, subs).None? && forall x | Under(n, x) :: NamedOrLeaf(pt, x)
    ensures Clear(pt, n) <==> forall x | Under(n, x) && ComparedWhole(pt, x) :: !WholeText(pt, x)
  {
    CleanIff(pt, n, subs);
    ClearIsEverywhere(pt, n);
    hide ComparedWhole, Offends, FirstOffence, Under, AllNamesOf, Siblings, Clear, WellFormed, Replaced, NamedOrLeaf;
    forall x | Under(n, x) && ComparedWhole(pt, x) ensures AllNamesOf(pt, x.children) == [] <==> !WholeText(pt, x) {
      UnderInside(n, x);
      NamesAreInner(pt, x.children);
      WholeIsOpaque(pt, x);
      forall c | Inner(pt, x, c) ensures c.start == x.start && c.end == x.end {
        NamedHasExtent(pt, x, c);
        PassedIsWhole(pt, x, subs, c);
      }
    }
  }

  lemma WholeIsOpaque(pt: PatternTree, n: Node)
    requires ComparedWhole(pt, n)
    ensures IsOpaque(pt, n.kind)
  {
  }

  lemma NamedHasExtent(pt: PatternTree, n: Node, c: Node)
    requires Inner(pt, n, c) && forall r | r in pt.placeholders :: r.start < r.end
    ensures c.start < c.end
  {
    hide Under;
    assert Range(c.start, c.end) in pt.placeholders;
  }

  /** The check lets a sequence through that is all of a literal, though the literal is then compared as
      text and the sequence may bind nothing. */
  lemma WholeLiteralPasses()
    ensures
      var name: bytes := [0x53, 0x45, 0x51, 0x5F, 0x58];
      var content := Node("string_content", true, 0, 5, 0, "", []);
      var literal := Node("string", true, 0, 5, 0, "", [content]);
      var pt := PatternTree(literal, name, map[Range(0, 5) := Placeholder([0x58], KindSeq)],
                            LangConfig([], [], ["string"], false), true);
      FirstOffence(pt, literal, [name]).None? && WellFormed(literal) && !Clear(pt, literal)
  {
    var name: bytes := [0x53, 0x45, 0x51, 0x5F, 0x58];
    var content := Node("string_content", true, 0, 5, 0, "", []);
    var literal := Node("string", true, 0, 5, 0, "", [content]);
    var pt := PatternTree(literal, name, map[Range(0, 5) := Placeholder([0x58], KindSeq)],
                          LangConfig([], [], ["string"], false), true);
    assert name[0..5] == name;
    assert FirstSub(pt, literal, [name], 1).None? && FirstSub(pt, content, [name], 1).None?;
    assert [content][1..] == [];
    assert FirstOffence(pt, content, [name]).None? by { assert FirstAmong(pt, content.children, [name]).None?; }
    assert FirstAmong(pt, literal.children, [name]).None? by { assert FirstAmong(pt, [], [name]).None?; }
    assert WellFormed(content) && Siblings([content], 0, 5) by { assert Siblings([], 5, 5); }
    assert NamedOnly([content]) == [content];
    assert Lookup(pt, content) == Some(Placeholder([0x58], KindSeq));
    assert ChainFrom(pt, literal, content, 1).Some?;
    assert ChainFrom(pt, literal, literal, 0).Some?;
    assert AllNames(pt, content) == [[0x58]];
    assert AllNamesOf(pt, literal.children) == [[0x58]] + AllNamesOf(pt, []);
  }
}
