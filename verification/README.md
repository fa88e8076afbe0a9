# auto_import: a Dafny model

This project models the decision logic of rust-analyzer's `auto_import` assist.
The assist offers one group of alternative actions, each labelled
``Import `<path>` ``, when three things hold: the name under the cursor does
not resolve, it is not inside a `use` item, and at least one located
definition has a use path with segments. Otherwise it offers nothing.

The assist depends on several collaborators. The `hir` source analyzer and
resolver, the imports locator, `find_use_path` and the path renderer are pure
oracle fields of `AutoImportAssist.Host`. The syntax tree is not an oracle: the
cursor's surroundings are given as data in `AutoImportAssist.Cursor`, which
holds ancestor chains of syntax nodes. What is left is a pure pipeline over the
oracles' answers and that data:

1. **Insertion anchor.** Use the item list of the innermost enclosing `mod`.
   If that `mod` has no item list, or there is no `mod`, use the enclosing
   source file. If there is no source file, offer nothing.
2. **Resolution guard.** Offer nothing if the analyzer sees no module, if no
   `Path` encloses the covering element, or if that path already resolves.
3. **Applicable name reference.** Inside a `use` item there is none.
   Otherwise it is the covering element when that is a `NameRef` node, or
   else its parent when that is a `NameRef`.
4. **Candidates.** Map each located definition through `find_use_path` and
   drop the ones with no path. Then drop paths with no segments, keep the
   first 20, and collect them into a set.
5. **Emission.** An empty set gives no suggestion. Otherwise the result is a
   group with id `auto_import` and label `auto import`, and the group's
   expansion has one action per distinct path.

Modules:

- `Wrappers` (`wrappers.dfy`) defines `Option`.
- `Seqs` (`seqs.dfy`) defines `take(n)` and set collection, with cardinality lemmas.
- `Syntax` (`syntax.dfy`) defines node kinds, ancestor chains, the covering
  element, and the `find_map(<Kind>::cast)` walk.
- `AutoImportAssist` (`auto_import.dfy`) holds the pipeline.
- `AutoImportProperties` (`auto_import_properties.dfy`) holds the all-input
  lemmas and the source file's three test scenarios.

Cap and deduplication order: the code applies `take(20)` before it collects
into a `HashSet`, and the model follows the code. As a result, fewer than 20
imports can be offered even when more than 20 distinct importable paths exist;
`CapBeforeDedup` proves this. When there are at least 20 candidates and the
first 20 of them are pairwise distinct, exactly 20 imports are offered
(`CapReachedWhenDistinct`).

## Model

| member | source | states |
|---|---|---|
| Syntax.FindKind | crates/ra_assists/src/assists/auto_import.rs:46 | the ancestor walk finds the innermost node of the requested kind, and finds nothing exactly when the chain holds no node of that kind |
| AutoImportAssist.InsertionAnchor | crates/ra_assists/src/assists/auto_import.rs:36-43 | the anchor is the item list of the innermost `mod` when that `mod` has one; otherwise it is the innermost source file; with neither, the result is None |
| AutoImportAssist.ResolutionGuard | crates/ra_assists/src/assists/auto_import.rs:44-49 | the pipeline continues exactly when the analyzer sees a module, a `Path` encloses the covering element, and the innermost such path does not resolve; the site it returns names that module and that path |
| AutoImportAssist.ApplicableNameRef | crates/ra_assists/src/assists/auto_import.rs:71-84 | three-way decision: nothing inside a `use` item; the element itself if it is a `NameRef` node; otherwise the parent if that is a `NameRef`; any result is a `NameRef` and is one of those two |
| AutoImportAssist.UsePaths | crates/ra_assists/src/assists/auto_import.rs:52-56 | the candidate sequence (`Candidates` applies it to the locator's answer in the analyzer's module): every kept path has segments and is the use path of some located definition; every definition whose use path has segments contributes its path; nothing is added |
| AutoImportAssist.ProposedImports | crates/ra_assists/src/assists/auto_import.rs:52-58 | a path is proposed exactly when it is the non-empty use path of a located definition that fewer than 20 candidates precede; there are at most 20 proposals, and no more than the non-empty candidates; the set is empty exactly when no located definition is importable |
| AutoImportAssist.AutoImport | crates/ra_assists/src/assists/auto_import.rs:31-69 | a suggestion has id `auto_import` and label `auto import`; it holds 1 to 20 imports, all with segments; it is anchored where the insertion anchor says; it is outside any `use` item; its target is the innermost path, and that path does not resolve; its imports are exactly the proposed imports for the applicable name in the analyzer's module |
| AutoImportAssist.Label | crates/ra_assists/src/assists/auto_import.rs:88 | the rendered path can be read back from between the label's backticks |
| AutoImportAssist.ImportToAction | crates/ra_assists/src/assists/auto_import.rs:86-96 | the action's label carries its import text, and its edit is built from the given anchor, path node and import text |
| AutoImportAssist.Alternatives | crates/ra_assists/src/assists/auto_import.rs:63-68 | expanding a group gives exactly one action per distinct import, in some order without repeats, each action built from that import's rendering |
| Seqs.Take | crates/ra_assists/src/assists/auto_import.rs:57 | `take(n)` keeps the first min(n, length) elements unchanged |
| Seqs.ElementsCard | crates/ra_assists/src/assists/auto_import.rs:58 | collecting into a set (`Elements`) never produces more entries than the sequence had |
| Seqs.ElementsEmpty | crates/ra_assists/src/assists/auto_import.rs:58-59 | the collected set is empty exactly when the sequence is empty, which is what the emptiness test relies on |
| Seqs.DistinctElementsCard | crates/ra_assists/src/assists/auto_import.rs:58 | collecting a sequence without repeats into a set loses nothing |
| AutoImportProperties.ResolvedPathGivesNone | crates/ra_assists/src/assists/auto_import.rs:46-49 | if the path at the cursor already resolves, there is no suggestion, whatever the locator returns |
| AutoImportProperties.InsideUseGivesNone | crates/ra_assists/src/assists/auto_import.rs:72-73 | if any ancestor of the covering element is a `use` item, there is no suggestion |
| AutoImportProperties.NothingImportableGivesNone | crates/ra_assists/src/assists/auto_import.rs:52-61 | if no definition located for the name under the cursor has a use path with segments in the analyzer's module, which includes a locator that finds nothing, there is no suggestion |
| AutoImportProperties.SuggestionWhenImportable | crates/ra_assists/src/assists/auto_import.rs:35-68 | once every guard passes, one importable located definition is enough for a suggestion; if fewer than 20 candidates precede it, its path is offered |
| AutoImportAssist.UsePathsAppend | crates/ra_assists/src/assists/auto_import.rs:54-56 | filtering keeps the locator's order: the candidates of a concatenation are the concatenated candidates |
| AutoImportAssist.UsePathsOrigin | crates/ra_assists/src/assists/auto_import.rs:54-56 | each candidate is the use path of one located definition, and the candidates before it are exactly those of the definitions before that one |
| AutoImportAssist.CandidateWithinCap | crates/ra_assists/src/assists/auto_import.rs:52-57 | an importable definition that fewer than 20 candidates precede survives `take(20)` |
| AutoImportProperties.UsePathsAllImportable | crates/ra_assists/src/assists/auto_import.rs:55-56 | when every definition is importable with segments, the candidates are exactly their paths, in order |
| AutoImportProperties.CappedCandidatesOfImportableHead | crates/ra_assists/src/assists/auto_import.rs:55-57 | when the first 20 located definitions are importable, the capped candidates are exactly their paths, in order |
| AutoImportProperties.CapTakesFirstImportable | crates/ra_assists/src/assists/auto_import.rs:52-58 | when the first 20 located definitions are importable, the proposals are exactly the set of their paths, and nothing located later is offered |
| AutoImportProperties.CapBeforeDedup | crates/ra_assists/src/assists/auto_import.rs:57-58 | the cap comes before deduplication: if 20 leading definitions share one path, that is the only import offered, whatever follows |
| AutoImportProperties.CapReachedWhenDistinct | crates/ra_assists/src/assists/auto_import.rs:57-58 | if there are at least 20 candidates and the first 20 are pairwise distinct, exactly 20 imports are offered |
| AutoImportProperties.DistinctLabels | crates/ra_assists/src/assists/auto_import.rs:63-68 | when distinct imports render differently, the alternatives' labels are pairwise distinct |
| AutoImportProperties.FoundImportExample | crates/ra_assists/src/assists/auto_import.rs:134-161 | a bare `Debug` at file level, with one locator answer importable as `std::ops::Debug`, gives one group anchored at the file with that single import |
| AutoImportProperties.NoImportsFoundExample | crates/ra_assists/src/assists/auto_import.rs:163-175 | the same cursor with a locator that finds nothing gives no suggestion |
| AutoImportProperties.InsideUseExample | crates/ra_assists/src/assists/auto_import.rs:177-186 | `use Debug;` gives no suggestion, even with the locator of the first scenario |

## Left out

- The syntax tree, `find_node_at_offset` and `covering_element` are not part of this model. A cursor is given as the ancestor chain of the `Path` found at the offset, plus the covering element and the nodes above it.
- The `hir` collaborators are oracles in `Host`, and their behaviour is not modelled. These are `source_analyzer(..).module()`, `resolve_path`, `find_use_path`, `AsName`, and the `Display` of `ModPath`. There is no proof that an inserted import makes the reference resolve.
- The `ImportsLocator` implementation and its mutable state are not modelled. The locator is a pure function from a name to definitions, as at the call site on lines 52-53. The test double's `find_imports` on lines 117-131 has a different signature and is not modelled.
- `auto_import_text_edit` and `ActionBuilder`'s text-edit construction are not part of this model. This includes import insertion and merging and the exact output text. An `Action` records only its label and the inputs of its edit (anchor, path node, import text).
- `add_assist_group` is not part of this model. It is taken to always produce the group, and its closure is modelled as the separate method `Alternatives`. The closure's laziness is not observable in a pure model.
- `HashSet` iteration order is unspecified. `Alternatives` picks an arbitrary order and reports it in `order`.
