# Structural search and rewrite, proved in Dafny

A model of the structural search engine under `internal/ast` and of the chunked credential store under
`internal/auth`, with proofs of what they promise. A pattern is a fragment of source with placeholders (`$X` binds
one node, `$$$X` any number of siblings); it is compiled under every parse context that can express it, matched
against parse trees, filtered by a where-tree, and a match is rewritten from a template that reuses as much of the
matched source as it can.

| files | subject |
|---|---|
| `Outcomes`, `Bytes`, `SyntaxTree`, `TokenText` | results, byte strings, parse trees, literal tokens |
| `Captures`, `Derivation`, `Search`, `PatternNames`, `Walker` | the backtracking matcher, the declarative relation it decides, and its four append-only records |
| `TraceOrder`, `RawMatches`, `WalkerLimits`, `OpaqueCheck` | what a match reports, filtered by its where-tree; where code and documentation differ; the compile's refusal of placeholders inside literals |
| `Dsl`, `Substitution` | the placeholder language, its two readers, and substitution before parsing |
| `Hosting`, `VariantUnion` | which node hosts a fragment; the union of variants and the ownership of parsed trees |
| `SpliceAnchors`, `SpliceScan`, `SpliceComments`, `Splice` | the source-anchored replacement |
| `SpliceAccounting`, `SpliceIdentity`, `MatchToSplice`, `MatchAnchors` | conservation, identity, what a match guarantees the splice |
| `DroppedWindows`, `PatternTemplate` | what the budget for dropped tokens covers; a pattern as its own template |
| `AnchorRivals`, `HandleAnchors`, `HandleExample` | which anchors survive the handles of a where-tree, and a match that loses one |
| `Edits` | overlap refusal and the one-pass edit applier |
| `WhereTree`, `CaptureCheck`, `WhereEval`, `HandleReach` | the static capture check and its soundness for the evaluator; which handles an evaluation may bind |
| `Flow` | the flows-to reachability walk |
| `Collect`, `CountHandles`, `Schedule` | per-file deduplication; when counting agrees with matching; both over freely interleaving workers |
| `Gate`, `Distance` | the admission gate as atomic steps; near-miss suggestions |
| `ManifestText`, `CredentialViews`, `ChunkStore`, `ChunkRuns` | the chunked credential store over a failing backend |

## How the source's forms are kept

Objects the Go code mutates are classes (`MatchRecords.Captures`, `SpliceScan.DroppedBudget`, `ChunkStore.Backend`,
`WhereEval.Scope`, `CaptureCheck.CaptureScope`, `Collect.ResultSet`, `VariantUnion.Trees`); loops are methods proved
against a function or a declarative predicate, and lemmas connect that specification to an independent meaning.
Concurrency (the gate, the workers) is a state machine whose runs interleave every atomic operation. Randomness, the
parser, clocks and the compiled verdict of a regular expression enter as parameters or as open choices.

## Preconditions the code relies on and does not check

* No capture is named `match`, the key reserved for the outer node (`internal/ast/match_collect.go:88-94`).
* Names of captures do not run into the identifiers of wildcards and sequences: no capture `$WILD` beside `$_`, `$SEQWILD`
  beside `$$$_`, or `$SEQ_X` beside a `$$$X` that gets the same number (`ReplacementsDistinctIff` is exact,
  `ReservedNamesCollide` shows the three collisions, `SharedCounterAvoids` a reserved name that does no harm).
* `Clear`, for what a match records, not for whether it succeeds: an anonymous pattern node is a leaf and no placeholder, and no named placeholder lies below a node compared as
  whole text. Given the first half, a variant that passed the compile's check (`internal/ast/opaque_text.go:107-138`)
  meets the second exactly when no such node is all placeholder (`ClearIffNoWholeText`; `WholeLiteralPasses` is a tree the
  check lets through).
* A pattern tree holds exactly the placeholders of the text it was compiled from (`CompiledFrom`); the capture check reads
  the text, the evaluation the tree.
* Generation identifiers drawn for the credential store are fresh.

## Where the code and its documentation differ

The model follows the code.

* `internal/ast/walker.go:22-24` says a comment written into a pattern is compared as an ordinary node. The sibling
  alignment skips every leading target comment first (`internal/ast/walker.go:302-312`), so a comment child of a
  pattern aligns with nothing; only a pattern whose root is a comment is compared
  (`PatternCommentNeverAligns`, `InnerCommentMatchesNothing`, `RootCommentIsCompared`).
* The position handed to the promotion test is documented as an index among all children, and it indexes the list
  without layout tokens; the two agree exactly when no layout token stands at or before it
  (`PositionIsRawIndexIff`; `LayoutShiftsTheFieldName` shows, on a made-up tree, a field name read from the wrong child).
* A trailing edge comment whose own text ends in a newline is not recovered: the inward step over whitespace passes its
  end first (`NewlineCommentLost`; `TrailCommentRecoveredIff` gives the exact condition).
* "Identity by construction" fails for a template that names an empty sequence behind the last anchor with whitespace or
  a dropped byte beside it: those bytes are inserted. It also fails for dropped bytes the budget does not cover, unless the
  identity probe trims them away as Unicode whitespace (`internal/ast/splice.go:147`). `IdentityIff` gives the exact
  condition over every tail of empty references and dropped bytes; `MixedTailKeepsItsByte` fails without any whitespace,
  and of `UnpaidWideSpaceVanishes`, an unpaid no-break space, nothing is left.
* The where-tree shares the match's capture table (`internal/ast/match_walk.go:389-400`), so every `as` handle and every key
  exported under it becomes a capture of the match and competes for the splice's anchors. The match's own anchors survive
  exactly when no handle has taken an own name for another node and none of what the handles add sorts no later than an own
  anchor and covers its first byte, with no own anchor ahead covering it and no shorter one starting with it
  (`OwnAnchorsSurviveIff`: sufficient for any handles, exact where their spans nest, as a single handle's do by
  `OneHandleNests`). `HandleHidesTheArgument` is a match of `f($A)`, with its derivation and its where-tree's evaluation,
  whose own pattern, used as the template, loses source whitespace. A handle called `match` replaces the span that is
  rewritten (`ReplacedSpan`).
* A count is documented to be what matching would report (`internal/ast/count.go:203-208`). Matching collapses matches by
  their `match` capture, counting by the node tried. The two agree on every file exactly when the where-tree has no outcome
  that is true and binds a handle called `match`, which is computed from the tree (`CountingAgreesIff`). A tree without such
  a leaf at its own level has none; a tree with one may still have none (`DeclaredYetNeverMoves`). `OneMatchTwoCounts` is an
  accepted tree and a file of one match and two counts, `MovedMatchesCountTwice` the same for two completed walks.
* The verdict on a file's edits depends on how an unstable sort orders equal starts exactly when an insertion starts where a
  rewrite does and no two edits intersect (`VerdictFixedIff`; `InsertionDependsOnSortOrder` shows such a file). The output of
  the accepted orders depends on it exactly when two insertions at one place do not commute (`OutputFixedIff`), which
  matches of distinct spans never give.

## Model

| member | source | states |
|---|---|---|
| GreedySearch.FindNodeIffDerivable | internal/ast/walker.go:138-320 | the search succeeds exactly when a derivation exists in the declarative matching relation |
| GreedySearch.FindNodeGreedy | internal/ast/seq_shadow.go:161-202 | the derivation found holds, and every promoted sequence in it takes the longest run after which the rest still matches |
| GreedySearch.FindNodeIsTheGreedyDerivation | internal/ast/seq_shadow.go:161-202 | the search returns a derivation exactly when it is the greedy one |
| GreedySearch.NodeGreedyUnique | internal/ast/walker.go:138-216 | a pattern node and a target node have at most one greedy derivation |
| GreedySearch.FindRunLongest | internal/ast/seq_shadow.go:176-202 | counting down from the longest run returns one no longer run could replace |
| Walker.MatchTree | internal/ast/walker.go:73-79 | decides derivability for every pattern and whatever records it is handed; for a `Clear` pattern the four records grow on success by exactly the greedy derivation's, and on failure the lists may only have grown and the bindings of names outside the pattern are untouched |
| Walker.MatchNode | internal/ast/walker.go:138-216 | one node: the answer for every pattern and, for a `Clear` one, the records of the greedy derivation; on failure the lists may only have grown and the bindings of other names are untouched |
| Walker.MatchSiblings | internal/ast/walker.go:249-320 | one sibling list: promotion or the ordinary reading, target comments skipped and recorded, trailing comments free; the records are stated for `Clear` siblings |
| Walker.MatchSeqShadow | internal/ast/seq_shadow.go:161-202 | the answer and the restored own binding for every pattern; for `Clear` siblings a failing sequence restores all three lists and a successful one leaves only the surviving run's records |
| Walker.FinishSiblings | internal/ast/walker.go:249-320 | with the pattern used up, only ignorable comments may remain; otherwise nothing is recorded |
| Walker.SkipComments | internal/ast/walker.go:300-313 | passes the leading target comments and records each span |
| SyntaxTree.FindSeqChain | internal/ast/seq_shadow.go:108-132 | finds the linear chain ending at a sequence placeholder, when there is one |
| SyntaxTree.AllChildren | internal/ast/walker.go:353-370 | the children without the grammar's layout tokens, in order |
| MatchRecords.Captures.BindSeq | internal/ast/captures.go:86-109 | binds a run of siblings with the text from the first to the last and one child capture each |
| MatchRecords.Captures.Rollback | internal/ast/alignment.go:126-131 | truncates the three lists to the marks and leaves the bindings alone |
| MatchRecords.Captures.CopyComments | internal/ast/alignment.go:242-256 | the recorded comments inside the given range, in order |
| Derivations.RebindForgets | internal/ast/seq_shadow.go:176-202 | replaying a derivation's bindings erases every difference speculation left under its names |
| PatternNames.NodeNames | internal/ast/walker.go:206-213 | a successful match binds every placeholder name below the pattern node and no other |
| TraceOrder.NodeOrdered | internal/ast/alignment.go:103-113 | a derivation's events are ascending and disjoint in pattern and in source |
| TraceOrder.NodeAgrees | internal/ast/layout_jsx.go:49-91 | every aligned token's source bytes equal the pattern token's, or are those trimmed where the entry aligns two anonymous tokens of a trimming grammar |
| TraceOrder.NodeKept | internal/ast/alignment.go:157-167 | no pattern byte is both aligned and dropped |
| TokenText.AlignedRangeHoldsComparedBytes | internal/ast/layout_jsx.go:77-91 | the range recorded for a token holds exactly the bytes the comparison read |
| RawMatches.TryMatch | internal/ast/match_walk.go:368-401 | reports a match exactly when one is derivable and the where-tree, if any, evaluates to true; for a `Clear` pattern the match is the greedy derivation's result with the leaves' handle bindings replayed onto its captures; an evaluation error is passed on |
| RawMatches.ToRawMatch | internal/ast/match_collect.go:74-96 | the outer node, the captures without the implicit one, the absorbed spans before the dropped ones, the comments inside |
| RawMatches.ResultBindings | internal/ast/match_collect.go:88-94 | without handles the captures are the pattern's names, each bound to its last occurrence in the derivation, beside the outer node |
| RawMatches.FilteredBindings | internal/ast/where_subpattern.go:144-181 | handles change nothing when no leaf of the tree's own level declares one; otherwise they change the captures they write and no other record |
| RawMatches.ResultInOrder | internal/ast/alignment.go:103-131 | alignment and comments of a match are ordered, disjoint, inside it, textually equal, and apart from dropped spans |
| RawMatches.RebindIsLastBinding | internal/ast/captures.go:67-72 | a name is bound to its last binding event, and untouched when there is none |
| WalkerLimits.PositionIsRawIndexIff | internal/ast/walker.go:239-243 | the filtered position is the raw child index exactly when no layout token precedes it |
| WalkerLimits.LayoutShiftsTheFieldName | internal/ast/seq_shadow.go:142-153 | a child list, of no registered grammar, on which the promotion decision changes with the index used |
| WalkerLimits.PatternCommentNeverAligns | internal/ast/walker.go:302-312 | no sibling derivation has a comment among its pattern children |
| WalkerLimits.InnerCommentMatchesNothing | internal/ast/walker.go:302-312 | a pattern with a comment anywhere below its root, outside what is bound whole or compared as text, is derivable against no node |
| WalkerLimits.RootCommentIsCompared | internal/ast/walker.go:138-216 | a childless comment at the pattern root matches exactly a childless comment of equal text |
| OpaqueCheck.CheckNoPlaceholderInside | internal/ast/opaque_text.go:107-138 | reports the first offence in pre-order, and none exactly when no replacement lies inside a node compared as whole text without being all of it |
| OpaqueCheck.ClearIffNoWholeText | internal/ast/opaque_text.go:104-138 | on a variant that passed, what the matcher relies on holds exactly when no node compared as whole text is all placeholder |
| OpaqueCheck.WholeLiteralPasses | internal/ast/opaque_text.go:104-106 | a literal, in a made-up tree no registered grammar is shown to yield, that is all sequence placeholder passes the check and breaks what the matcher relies on |
| PlaceholderDsl.LexPlaceholder | internal/ast/dsl.go:162-242 | computes the lexer's specification |
| PlaceholderDsl.LexIffSpelled | internal/ast/dsl.go:162-265 | accepts exactly the five spellings, taking as many characters as it can |
| PlaceholderDsl.Parse | internal/ast/dsl.go:131-154 | computes the pattern reader's specification |
| PlaceholderDsl.LexAllIffTiled | internal/ast/dsl.go:131-154 | the tokens read are ordered, disjoint, each spelled at its place, and cover every dollar; nothing else is accepted |
| PlaceholderDsl.InterpolateTemplate | internal/ast/replace.go:69-117 | computes the template renderer's specification |
| PlaceholderDsl.TwoReadersAgree | internal/ast/replace.go:69-117 | a template renders exactly when it parses with bound named captures and escapes only, as the literal gaps joined with capture texts and dollars |
| Substitution.SubstitutePlaceholders | internal/ast/engine.go:165-220 | copies every gap unchanged and emits one replacement per capture placeholder, in order |
| Substitution.SubsAreCaptures | internal/ast/engine.go:165-220 | the replacements are those of the capture placeholders, in order, escapes excepted |
| Substitution.ReplacementsDistinctIff | internal/ast/engine.go:186-212 | all replacements differ exactly when no two placeholders of one written stem, counted apart, come to the same number |
| Substitution.NoReservedIsUnambiguous | internal/ast/engine.go:186-212 | a pattern without reserved names meets that condition |
| Substitution.ReservedNamesCollide | internal/ast/engine.go:193-212 | `$$$X` and `$SEQ_X`, `$_` and `$WILD`, `$$$_` and `$SEQWILD` become the same identifier |
| Substitution.SharedCounterAvoids | internal/ast/engine.go:186-206 | `$X` ahead of `$$$X` and `$SEQ_X` moves the numbers apart, and nothing collides |
| Substitution.IndexByText | internal/ast/engine.go:300-327 | computes the index by replacement text |
| Substitution.SubstitutionIsReadBack | internal/ast/engine.go:300-327 | under that condition, looking a replacement up by its text gives back its own placeholder |
| Hosting.HostsPattern | internal/ast/engine_variants.go:317-329 | hosts exactly when one of the three rules holds of the smallest covering node, as that rule says |
| Hosting.HostByAbsorption | internal/ast/engine_variants.go:338-378 | finds the absorbed run when there is one and refuses exactly when there is none |
| Hosting.HostByContainer | internal/ast/engine_variants.go:387-402 | hosts exactly when everything outside the fragment is anonymous wrapper text |
| Hosting.OneRuleOneHost | internal/ast/engine_variants.go:317-329 | an accepted host falls under exactly one rule, in one way; `RuleOrderMatters` is a node two rules would accept |
| Hosting.AbsorbedIsFragmentText | internal/ast/engine_variants.go:355-377 | absorbed spans are anonymous, ordered, behind the root, inside the fragment, and end at its last byte |
| Hosting.OutOfSpanIsWrapperText | internal/ast/engine_variants.go:391-401 | out-of-span ranges are wrapper bytes in order, and no named child reaches outside the fragment |
| Hosting.SmallestIsBelowAll | internal/ast/engine.go:275-289 | every named node covering a non-empty span has the node found below it |
| VariantUnion.Enumerate | internal/ast/engine_variants.go:163-193 | every wrapper ends in exactly one variant, by key, contexts and names aligned, the variants in the order of their first hosts, or in the reject list; a fault releases every tree |
| VariantUnion.TryWrapper | internal/ast/engine_variants.go:237-279 | a tree that does not become a candidate is closed before returning |
| VariantUnion.NarrowMemberKeywordVariants | internal/ast/engine_narrow.go:46-86 | an order-preserving partition dropping exactly the eligible variants, the last excepted when all are, and never emptying the kept set |
| VariantUnion.ApplyContextPin | internal/ast/engine_pin.go:34-64 | keeps the pinned variants, closes the others' trees, and on an empty selection names the contexts that would have worked |
| VariantUnion.PinnedIffCarries | internal/ast/engine_pin.go:44-48 | a pin keeps a variant exactly when it carries the context |
| VariantUnion.CompileVariants | internal/ast/engine_variants.go:144-222 | each parsed tree is owned by one returned variant or closed once, on every path; an error leaves none open |
| SpliceAnchors.BuildAnchors | internal/ast/splice.go:190-230 | the anchors are candidates in strict source order, disjoint, each candidate kept unless a kept one that sorts no later covers its first byte |
| SpliceAnchors.DisjointCandidatesAllKept | internal/ast/splice.go:190-230 | a candidate that overlaps no other is an anchor |
| SpliceAnchors.AllKeptIffApart | internal/ast/splice.go:190-230 | no candidate is lost exactly when no two overlap |
| SpliceAnchors.SameStartShorterWins | internal/ast/splice.go:212-229 | a candidate is never an anchor when another starts with it and ends before it |
| MatchToSplice.MatchAnchorsAllKept | internal/ast/splice.go:190-230 | for the records of one match without handles no candidate is lost: every literal token and named capture with extent is an anchor |
| HandleAnchors.OwnAnchorsSurviveIff | internal/ast/splice.go:190-230 | every anchor list of a filtered match holds all the match's own anchors if no handle has taken an own name for another node and nothing the handles add takes an own anchor's place; where the handles' spans nest, only if |
| AnchorRivals.OwnSurviveIff | internal/ast/splice.go:190-230 | the same of any candidates that stand apart and any nesting rivals: a rival harms exactly when it sorts no later than an own candidate and covers its first byte, no own one ahead covers it, and no shorter rival starts with it |
| HandleAnchors.OneHandleNests | internal/ast/where_subpattern.go:144-181 | what one handle adds, the node found and the captures of its match, lies inside one another or apart |
| HandleAnchors.HandlesChangeNothingIff | internal/ast/splice.go:190-230 | every anchor list of the filtered match is the unfiltered one exactly when own names are intact and an own anchor that sorts earlier covers the first byte of everything the handles add |
| HandleAnchors.UnwrittenIntact | internal/ast/where_subpattern.go:144-181 | names no leaf wrote are intact |
| HandleAnchors.FilteredAnchorsAllKeptIff | internal/ast/splice.go:190-230 | no candidate at all, the handles' own ones among them, is lost exactly when nothing a handle wrote overlaps another one; none is when no leaf of the tree's own level declares a handle |
| HandleAnchors.ReplacedSpan | internal/ast/match_collect.go:88-94 | the span to replace is the matched node's, or the node's a handle called `match` was last bound to |
| HandleExample.HandleHidesTheArgument | internal/ast/splice.go:190-230 | a pattern tree, a derivation, an accepted where-tree and an evaluation of it such that the argument's capture is in no anchor list and the pattern's own text as the template loses source whitespace |
| MatchToSplice.MatchCommentsDisjoint | internal/ast/alignment.go:242-256 | the skipped comments of one match are pairwise disjoint |
| SpliceScan.DroppedBudget.Claim | internal/ast/splice_dropped.go:64-76 | pays one byte from the first span inside the window holding it, or nothing |
| SpliceScan.PayingCostsOne | internal/ast/splice_dropped.go:64-76 | a granted claim lowers the total left by exactly one |
| SpliceScan.PatWindow | internal/ast/splice_dropped.go:132-147 | the pattern bytes between the neighbouring literal anchors |
| SpliceScan.ScanTemplateHead | internal/ast/splice.go:234-275 | computes the head scan and spends the shared budget accordingly |
| SpliceScan.ScanTemplateTail | internal/ast/splice.go:279-324 | computes the tail scan, never passing the head's offset |
| SpliceScan.ConsumeDroppedTail | internal/ast/splice_dropped.go:103-122 | how far dropped bytes reach behind the last anchor |
| SpliceComments.RecoverEdgeComments | internal/ast/splice_comments.go:39-94 | terminates and computes the recovered edges |
| SpliceComments.PiecesAreEdges | internal/ast/splice_comments.go:39-94 | lead pieces are a prefix and trail pieces a suffix of the region, disjoint, the whitespace pieces blank |
| SpliceComments.NoCommentEdges | internal/ast/splice.go:442-454 | without a comment the pieces are the region's edge whitespace |
| SpliceComments.LeadCommentRecoveredIff | internal/ast/splice_comments.go:48-70 | a comment reachable from the front is recovered exactly when it and those before it start with no whitespace |
| SpliceComments.TrailCommentRecoveredIff | internal/ast/splice_comments.go:73-88 | a comment reachable from the back is recovered exactly when it and those behind it end with no whitespace |
| SpliceComments.EdgeCommentsSurvive | internal/ast/splice_comments.go:39-94 | a recorded comment reachable from an edge stands verbatim in a comments piece |
| SpliceComments.NewlineCommentLost | internal/ast/splice_comments.go:73-88 | a trailing comment holding its own newline is lost |
| Splice.SpliceFromSource | internal/ast/splice.go:123-178 | computes the splice of the anchors built from the match, or renders the template when there are none |
| Splice.BoundsKeepConsumedAnchors | internal/ast/splice.go:332-349 | the replaced region lies inside the match, consumed anchors outside it, the others inside, so neither fallback is reached |
| Splice.SplitEdgeSpace | internal/ast/splice.go:424-436 | splits a template region into blank lead, core, blank trail |
| SpliceAccounting.TemplateAccounted | internal/ast/splice.go:234-324 | the template is the head's reading, the middle, and the tail's: whitespace, anchors in order, empty references, and dropped bytes paid at most once from the spans' total width |
| SpliceAccounting.ConsumedAnchorsSurvive | internal/ast/splice.go:145-178 | the result is untouched source around a middle, and every consumed anchor lies in the untouched part |
| SpliceAccounting.EdgeCommentsAreReEmitted | internal/ast/splice.go:166-177 | every comment reachable from an edge of the replaced region stands verbatim in the output |
| SpliceIdentity.RepeatingTemplateIsIdentity | internal/ast/splice.go:123-150 | a template repeating the anchors, with any whitespace and affordable dropped bytes, yields the matched span byte for byte |
| SpliceIdentity.IdentityIff | internal/ast/splice.go:123-178 | with any mix of empty references and dropped bytes behind the last anchor, affordable or not: if the tail names a sequence, the result is the matched span exactly when it is all references without whitespace; otherwise exactly when what stands behind the affordable dropped bytes trims to nothing |
| SpliceIdentity.UnpaidWideSpaceVanishes | internal/ast/splice.go:140-150 | the bytes of a no-break space no budget pays for trim to nothing |
| SpliceIdentity.TrailingEmptyRefsInsertTheRest | internal/ast/splice.go:123-178 | a tail naming an empty sequence inserts what is left of it without the references |
| SpliceIdentity.MixedTailKeepsItsByte | internal/ast/splice.go:123-178 | a tail without whitespace that still fails: the dropped byte stays |
| MatchAnchors.AnchorsAreEvents | internal/ast/splice.go:190-230 | a match whose pattern repeats no name has one anchor list, its derivation's events with extent, in order |
| DroppedWindows.PayableIff | internal/ast/splice_dropped.go:64-76 | a byte is paid for exactly when spans reaching into the window have bytes left; then one fewer is left there and none is taken from spans behind it |
| DroppedWindows.NextWindowFunded | internal/ast/splice_dropped.go:132-147 | behind a literal anchor the budget covers every byte of the dropped spans up to the next one, whatever was paid before |
| PatternTemplate.PiecesRepeat | internal/ast/splice.go:234-275 | the text of a pattern, dropped and absorbed tokens included, repeats the anchors of its match, and all its dropped bytes are paid for |
| PatternTemplate.PatternRewritesToItself | internal/ast/splice.go:123-178 | a pattern used as its own template, what its match dropped and what the compile absorbed included, rewrites every match to itself exactly when it ends in no reference to an empty sequence, or in such references alone without whitespace or dropped bytes |
| PatternTemplate.FilteredRewritesToItself | internal/ast/splice.go:123-178 | the same of a match filtered by a where-tree whose handles are named like no placeholder and not `match`, when an own anchor that sorts earlier covers the first byte of everything they add |
| Edits.SpliceEdits | internal/ast/replace.go:225-253 | succeeds exactly for in-bounds, non-overlapping lists, with the result of applying the edits right to left and the pre-computed length |
| Edits.ApartIffNotOverlapping | internal/ast/replace.go:181-188 | checking neighbours decides pairwise disjointness |
| Edits.ForwardIsRightToLeft | internal/ast/replace.go:225-253 | the forward pass equals the naive right-to-left application |
| Edits.ChangedEditCount | internal/ast/replace.go:198-209 | counts the in-bounds edits that change bytes |
| Edits.NoMoveIsIdentity | internal/ast/replace.go:198-209 | when no edit changes a byte the output is the source |
| Edits.BuildFileEdits | internal/ast/replace.go:143-173 | each file's edits are sorted and kept whole, or the file is refused for an overlap; no file is lost |
| Edits.OverlapIffClash | internal/ast/replace.go:181-188 | where no insertion starts at a rewrite's start, overlap means two edits intersect, in whatever order equal starts were sorted |
| Edits.RefusedIffClash | internal/ast/replace.go:143-173 | some sort refuses the file exactly when two edits intersect or an insertion is tied to a rewrite; some sort accepts it exactly when no two intersect |
| Edits.VerdictFixedIff | internal/ast/replace.go:161-188 | every sort gives the same verdict exactly when no insertion is tied to a rewrite or two edits intersect anyway |
| Edits.OutputFixedIff | internal/ast/replace.go:161-253 | every accepted sort of a file's edits gives the same output exactly when two edits intersect, so that none is accepted, or the insertions at each place commute |
| Edits.DistinctSpansCommute | internal/ast/match_collect.go:42-53 | edits of distinct spans hold no two insertions at one place |
| Edits.InsertionsCollide | internal/ast/replace.go:161-170 | two insertions at one place come out in the order of the sort |
| Edits.InsertionDependsOnSortOrder | internal/ast/replace.go:161-188 | an insertion sharing its start with a rewrite is judged differently in the two orders |
| WhereEval.FilterMatch | internal/ast/where.go:248-319 | in every evaluation of an accepted tree, an unresolved capture is a handle, or a key under one, of the scope it steps out to, and nothing a match of that scope binds; the match leaves with its own captures and the leaves' bindings replayed onto them |
| WhereEval.EvalWhere | internal/ast/where.go:248-289 | every scope keeps all its pattern's bindings and gains only exportable keys; errors are explained at the level they arise; the result is what the composers make, in order and stopping early, of the verdicts met |
| WhereEval.TrueIffComposersHold | internal/ast/where.go:248-289 | an evaluation without error is true exactly when every `all` child and every leaf was, some `any` child was when there are any, and the negated child was not |
| WhereEval.EvalLocalLeaves | internal/ast/where_leaves.go:41-73 | the local leaves present are evaluated in order until one does not hold |
| WhereEval.EvalWalkingLeaves | internal/ast/where_leaves.go:79-99 | the sub-patterns and flows-to follow in order until one does not hold |
| WhereEval.ResolveCapture | internal/ast/where.go:300-319 | resolves exactly when the name is bound in the scope as many levels out as the prefix says |
| WhereEval.BindAs | internal/ast/where_subpattern.go:144-181 | clears the handle's namespace, binds the handle to the matched node and exports every capture of the sub-match under it |
| WhereEval.HandleStandsFor | internal/ast/where_subpattern.go:144-181 | a name without a dot stands for the node a handle of that name was last bound to, and otherwise for what it stood for before |
| WhereEval.ExportsNothingIff | internal/ast/where_subpattern.go:144-181 | a tree may add to its match's captures exactly when a leaf of its own level declares a handle |
| WhereEval.HandleFreeNeverUnresolved | internal/ast/where_capture_validate.go:116-132 | an accepted tree without handles never meets an unresolved capture |
| WhereEval.NestedExportDeclaredIffBound | internal/ast/where_subpattern.go:160-168 | a nested handle is exported too, and the check declares the key exactly when the leaf's own pattern binds that name |
| WhereEval.HandlesAreExported | internal/ast/where_capture_validate.go:153-185 | everything the check declares an evaluation may bind |
| WhereEval.NothingBeyondExports | internal/ast/where.go:313-316 | a name neither bound by a match nor exportable never resolves |
| WhereEval.BaseIsDotless | internal/ast/where_subpattern.go:91-101 | placeholder names carry no dot, so clearing a namespace removes none of them |
| CaptureCheck.ValidateWhereCaptureRefs | internal/ast/where_capture_validate.go:116-132 | accepts exactly when the tree is accepted for the names of every pattern |
| CaptureCheck.ValidateCaptureRefs | internal/ast/where_capture_validate.go:141-147 | one scope: handles of the whole level first, then references, then nested trees in child scopes |
| CaptureCheck.Resolves | internal/ast/where_capture_validate.go:68-83 | true exactly when the chain declares the name that many levels out |
| CaptureCheck.DeclareHandles | internal/ast/where_capture_validate.go:153-185 | adds exactly the level's handles and the keys their own patterns export |
| Flow.FlowReaches | internal/ast/where_flow_reach.go:239-283 | true exactly when a composite value already lies in the destination or a walk along declared and same-text edges leads from a seed to a bound endpoint; each span leaves the queue at most once |
| Flow.IndexFlowGraph | internal/ast/where_flow_reach.go:111-138 | the index holds every endpoint, the same-text buckets and the declared edges, nothing else |
| Flow.SeedFlowQueue | internal/ast/where_flow_reach.go:168-186 | the seeds are the endpoint values and the consumers of composite ones, unless one already lies in the destination |
| Flow.SpanConsumers | internal/ast/where_flow_reach.go:148-162 | the targets of exactly the steps with an operand inside the value |
| Flow.FromInsideToFlows | internal/ast/where_flow_reach.go:164-186 | a value inside the destination reaches it, endpoint or not |
| Flow.UnconsumedCompositeNeverFlows | internal/ast/where_flow_reach.go:212-232 | a composite value no step consumes reaches nothing, whatever text its operands share |
| Collect.CollectFile | internal/ast/match_walk.go:410-498 | runs queries and one shared walk and returns the deduplicated set, or the first error |
| Collect.ResultSet.Absorb | internal/ast/match_collect.go:42-53 | keeps the position map and the output in step while a lower variant replaces a higher one in place |
| Collect.SurvivorsCollapse | internal/ast/match_collect.go:42-53 | each span found appears once, stamped by the lowest variant that found it |
| Collect.OrderDoesNotMatter | internal/ast/match_collect.go:34-53 | which spans survive and their stamps do not depend on the order of emission |
| Collect.CountsAreMatches | internal/ast/count.go:172-257 | when every hit's `match` capture is the node tried, counting a file yields the spans and kinds of exactly its matches, in order |
| Collect.CountsAreMatchesIff | internal/ast/count.go:154-208 | for given trials, counting agrees with matching on every file exactly when every hit's `match` capture is the node tried |
| HandleReach.OutsSound | internal/ast/where.go:248-289 | what an evaluation without error comes to, and whether it binds a given handle, is among the outcomes computed from the where-tree |
| HandleReach.OutsComplete | internal/ast/where.go:248-289 | every outcome computed is that of some evaluation, with the handle at any node |
| HandleReach.NeverBoundIff | internal/ast/where_subpattern.go:144-181 | every true evaluation leaves a handle's name alone exactly when no computed outcome is true and binds it |
| CountHandles.UndeclaredNeverMoves | internal/ast/where_subpattern.go:144-181 | `match` is exportable exactly when a leaf of the tree's own level has that handle, and without one no true outcome binds it |
| CountHandles.ReportedSpan | internal/ast/match_collect.go:88-94 | the span a reported match carries is the one an evaluation's bindings leave under `match` |
| CountHandles.CountingAgreesIff | internal/ast/count.go:154-208 | over all trials a where-tree lets through, counting agrees with matching on every file exactly when the tree has no outcome that is true and binds a handle called `match` |
| CountHandles.InsideAccepted | internal/ast/where_capture_validate.go:116-147 | the check accepts `inside_pattern` of the match with the handle `match`, for every pattern |
| CountHandles.OneMatchTwoCounts | internal/ast/match_collect.go:42-60 | under that tree a file whose two hits lie in one node found is one match and two counts |
| CountHandles.DeclaredYetNeverMoves | internal/ast/where.go:248-289 | under `not` the same leaf declares the handle and no true outcome binds it |
| Schedule.MatchRunsAgree | internal/ast/match_walk.go:84-173 | two completed walks report the same multiset of matches, whatever the interleaving |
| Schedule.CountAgreesWithMatch | internal/ast/count.go:77-96 | where the where-tree meets that condition, over files whose matches and counts are collected from the same trials, a completed count equals any completed match run in total, by file and by kind, and both breakdowns sum to the total |
| Schedule.MovedMatchesCountTwice | internal/ast/count.go:77-96 | where it does not, there is a file on which a completed match run reports one match and a completed count two |
| Schedule.EveryFileAccounted | internal/ast/match_counters.go:56-103 | scanned plus skipped is the number of files, and the counters depend on the files alone |
| Gate.PeakIsExact | internal/ast/match_admission.go:123-147 | in every state of every run in-flight, held permits and peak stay within the slots, and with no raise pending the peak is the largest in-flight count ever reached |
| Gate.StepIsSound | internal/ast/match_admission.go:123-147 | every atomic step keeps the invariant |
| Gate.PeakOnlyRises | internal/ast/match_admission.go:140-147 | no step lowers the peak, and a losing compare-and-swap was overtaken by a higher one |
| Distance.EditDistance | internal/ast/where_kind_suggest.go:94-122 | two rolling rows compute the distance recurrence |
| Distance.LevIsLeast | internal/ast/where_kind_suggest.go:90-93 | the recurrence is the least number of single-byte insertions, removals and replacements |
| Distance.LengthBound | internal/ast/where_kind_suggest.go:63-67 | the length filter drops no candidate within the bound |
| Distance.ClosestVocabulary | internal/ast/where_kind_suggest.go:56-88 | the first three of all candidates within three edits, ordered by distance and name |
| Distance.RankingIsUnique | internal/ast/where_kind_suggest.go:74-79 | two rankings of the same entries are equal, so an unstable sort changes nothing |
| Distance.UnsuggestedRanksBehind | internal/ast/where_kind_suggest.go:80-82 | an entry three edits away or fewer is suggested or ranks behind three others |
| Distance.SuggestionIsNear | internal/ast/where_kind_suggest.go:56-88 | every suggestion is a vocabulary entry at most three edits away |
| ManifestText.ManifestReadsBack | internal/auth/storage_chunks.go:29-38 | every manifest a Set writes parses to the chain it was written for |
| ManifestText.ManifestFits | internal/auth/storage_chunks.go:110-118 | the manifest of eight generations fits one native entry |
| ManifestText.PartKeyInjective | internal/auth/storage_chunks.go:39-41 | a part's name determines its credential, generation and number |
| ChunkStore.Store.Set | internal/auth/storage_chunks.go:76-107 | after every backend operation the credential reads as before or, from one point on, as the new value; every stored part stays addressable unless an abort could not be cleaned up; success leaves one generation |
| ChunkStore.Store.Get | internal/auth/storage_chunks.go:42-63 | a successful read is the credential's whole value; without faults the read is exact |
| ChunkStore.Store.Delete | internal/auth/storage_chunks.go:144-158 | a failure keeps the entry naming every part still stored; success leaves no entry and no addressable part |
| ChunkStore.PrepareParts | internal/auth/storage_chunks.go:109-142 | refuses exactly a backlog of eight, leaves small plain values alone, otherwise writes all parts before anything names them |
| ChunkStore.RemoveParts | internal/auth/storage_chunks.go:64-75 | removes only named parts, reports success exactly when no operation failed, and then none is left |
| CredentialViews.ViewKept | internal/auth/storage_chunks.go:42-63 | parts of other generations do not change what a credential reads as |
| CredentialViews.ViewLost | internal/auth/storage_chunks.go:144-158 | losing parts makes a value unavailable, never another value |
| CredentialViews.SoundPublished | internal/auth/storage_chunks.go:89-95 | publishing a fresh generation in front of its predecessors keeps every part addressable |
| CredentialViews.OtherCredentialKept | internal/auth/storage_chunks.go:39-41 | operations on one credential leave every other credential's value and parts alone |
| ChunkRuns.Run | internal/auth/storage_chunks.go:42-158 | over any run with any faults, a read that succeeds returns a value stored whole by an operation after which none completed |
| ChunkRuns.LegacyIsSound | internal/auth/storage_chunks.go:12-14 | a plain value written before parts existed, or a manifest nobody can read, is a sound start |

## Left out

- MatchTree: what is recorded is stated for `Clear` patterns; for a sequence placeholder that is the whole text of a node compared as text, and an anonymous node with children, only the answer is.
- MatchNode: the records need `Clear` for the same reason as MatchTree's.
- MatchSiblings: the records need `Clear` for every sibling, as MatchTree's do for the root.
- NodeNames: stated for `Clear` patterns, as MatchTree is.
- MatchSeqShadow: a slice past the end of the source reads as empty, where Go panics; it arises only for malformed trees.
- FindSeqChain: the chain is read from the tree in one descent; the reuse of a tree cursor is not part of the model.
- FilterMatch: what a single leaf answers once its captures are resolved, which candidates a sub-pattern matches, and compile failures are left open; every match is taken to bind exactly the placeholders of its pattern and `$match`.
- TryMatch: without `Clear`, and then without a where-tree, only whether there is a match is stated; the capture table the evaluation shares with the matcher is handed over and taken back; nothing reads it in between.
- ToRawMatch: file path, lines, compiled kind and contexts are left out; `Collect` carries the path and the kind.
- ResultBindings: stated of a match without handles; FilteredBindings says what handles add.
- RootCommentIsCompared: a comment whose grammar gives it children is compared child by child, which is not restated.
- PatternRewritesToItself: what stands between the pattern's tokens must be whitespace, dropped or absorbed, as it is in a parse tree; a pattern with wildcards or repeated names is not covered, nor one whose dropped tokens hold identifier characters or read like the literal token behind them, nor a grammar that trims anonymous tokens; a wildcard is an error in a template.
- OwnAnchorsSurviveIff: which anchors are lost is left open for handles whose spans cross, as runs of siblings found by two leaves may.
- IndexByText: reads the placeholder off a node's text; the walk over the tree that keys placeholders by byte range is left out.
- EvalWhere: a missing child of a composer is an empty node; the compile cache and its lock are not part of the model.
- ParseParts: accepts the manifests a Set writes; other spellings of the same JSON are unreadable in the model.
- Store.Set: backend operations fail without effect, and one credential is used by one caller at a time.
- NarrowMemberKeywordVariants: whether a variant's name reads as a keyword is an input.
- CompileVariants: parsing, hosting and the dedupe key of each wrapper are inputs; `Hosting` proves the hosting rules and `OpaqueCheck` the placeholder check apart.
- BuildFileEdits: the replacements are inputs; template errors and the sorting of the refusal list are left out.
- CollectFile: which nodes a query or the walk visits and what a trial finds are inputs; `RawMatches` proves the trial.
- CountAgreesWithMatch: no cancellation and no worker failing to compile; panics, timings and the replace path's parse hints are left out.
- FlowReaches: the declared steps are inputs, as the language arm gives them; the memo of those steps is left out.
- HostsPattern: `patternRootKind` and the compile-failure texts are left out.
- SpliceEdits: reading and writing files, the guards around re-parsing, and diffs are left out.
- Distance: names are compared as bytes, as the code does.
- tree-sitter, root queries, per-language tables, kind vocabularies, regular expressions and flow arms are inputs or open choices.
- `ValidateWhereKinds` and `ValidateWhereFlowArms`: walks that only check one leaf kind, easier than the capture check.
- OAuth, discovery, HTTP, keyring and file stores, token refresh: outside the two subjects modelled here.
- Error-message texts, logging and JSON decoding of where-trees.
