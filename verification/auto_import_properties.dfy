/** What the `auto_import` assist promises, stated over all cursors and all
    oracle answers, plus the assist's own test scenarios. */
module AutoImportProperties {
  import opened Wrappers
  import opened Syntax
  import opened Seqs
  import opened AutoImportAssist

  // ---------------------------------------------------------------------------
  // Guards

  /** A path that already resolves is never "fixed", whatever the locator finds. */
  lemma ResolvedPathGivesNone<Def>(host: Host<Def>, cursor: Cursor, anchor: NodeId, i: nat)
    requires cursor.pathAtOffset.Some?
    requires InsertionAnchor(cursor.pathAtOffset.value) == Some(anchor)
    requires IsFirstOfKind(Ancestors(cursor.covering), i, Path)
    requires host.resolves(anchor, Ancestors(cursor.covering)[i].id)
    ensures forall locate: Name -> seq<Def> :: AutoImport(host.(locate := locate), cursor).None?
  {
  }

  /** No suggestion for a name written inside a `use` item, whatever the oracles say. */
  lemma InsideUseGivesNone<Def>(host: Host<Def>, cursor: Cursor)
    requires HasKind(Ancestors(cursor.covering), UseItem)
    ensures AutoImport(host, cursor).None?
  {
  }

  /** No suggestion when none of the definitions located for the name under
      the cursor has a non-empty use path in the analyzer's module (in
      particular when the locator finds nothing). */
  lemma NothingImportableGivesNone<Def>(host: Host<Def>, cursor: Cursor, anchor: NodeId, scope: ModuleId, nameRef: Node)
    requires cursor.pathAtOffset.Some?
    requires InsertionAnchor(cursor.pathAtOffset.value) == Some(anchor)
    requires host.moduleOf(anchor) == Some(scope)
    requires ApplicableNameRef(cursor.covering) == Some(nameRef)
    requires forall d :: d in host.locate(host.asName(nameRef.id)) ==>
               host.findUsePath(scope, d).None? || host.findUsePath(scope, d).value.segments == []
    ensures AutoImport(host, cursor).None?
  {
  }

  /** Conversely, once every guard passes, a single importable definition is
      enough for a suggestion, and its path is among the offered imports when
      fewer than `MaxImports` candidates precede it. */
  lemma SuggestionWhenImportable<Def>(
    host: Host<Def>, cursor: Cursor, anchor: NodeId, scope: ModuleId, i: nat, nameRef: Node, j: nat)
    requires cursor.pathAtOffset.Some?
    requires InsertionAnchor(cursor.pathAtOffset.value) == Some(anchor)
    requires host.moduleOf(anchor) == Some(scope)
    requires IsFirstOfKind(Ancestors(cursor.covering), i, Path)
    requires !host.resolves(anchor, Ancestors(cursor.covering)[i].id)
    requires ApplicableNameRef(cursor.covering) == Some(nameRef)
    requires j < |host.locate(host.asName(nameRef.id))|
    requires var d := host.locate(host.asName(nameRef.id))[j];
             host.findUsePath(scope, d).Some? && host.findUsePath(scope, d).value.segments != []
    ensures AutoImport(host, cursor).Some?
    ensures |CandidatesBefore(host, scope, host.asName(nameRef.id), j)| < MaxImports ==>
              host.findUsePath(scope, host.locate(host.asName(nameRef.id))[j]).value
                in AutoImport(host, cursor).value.imports
  {
  }

  // ---------------------------------------------------------------------------
  // Candidate pipeline

  /** When every definition has a non-empty use path, nothing is dropped and
      the candidates are those paths, in order. */
  lemma {:induction false} UsePathsAllImportable<Def>(f: Def -> Option<ModPath>, defs: seq<Def>)
    requires forall i :: 0 <= i < |defs| ==> f(defs[i]).Some? && f(defs[i]).value.segments != []
    ensures |UsePaths(f, defs)| == |defs|
    ensures forall i :: 0 <= i < |defs| ==> UsePaths(f, defs)[i] == f(defs[i]).value
    decreases |defs|
  {
    if |defs| > 0 {
      UsePathsAllImportable(f, defs[1..]);
    }
  }

  /** When the first `MaxImports` located definitions are all importable, the
      capped candidates are exactly their paths, in order. */
  lemma {:induction false} CappedCandidatesOfImportableHead<Def>(host: Host<Def>, scope: ModuleId, name: Name)
    requires |host.locate(name)| >= MaxImports
    requires forall i :: 0 <= i < MaxImports ==>
               host.findUsePath(scope, host.locate(name)[i]).Some?
               && host.findUsePath(scope, host.locate(name)[i]).value.segments != []
    ensures |Take(Candidates(host, scope, name), MaxImports)| == MaxImports
    ensures forall i :: 0 <= i < MaxImports ==>
              Take(Candidates(host, scope, name), MaxImports)[i] == host.findUsePath(scope, host.locate(name)[i]).value
  {
    var f := d => host.findUsePath(scope, d);
    var defs := host.locate(name);
    var head := defs[..MaxImports];
    assert defs == head + defs[MaxImports..];
    UsePathsAppend(f, head, defs[MaxImports..]);
    UsePathsAllImportable(f, head);
  }

  /** When the first `MaxImports` located definitions are all importable, the
      proposals are exactly their paths, and nothing located later can enter. */
  lemma {:induction false} CapTakesFirstImportable<Def>(host: Host<Def>, scope: ModuleId, name: Name)
    requires |host.locate(name)| >= MaxImports
    requires forall i :: 0 <= i < MaxImports ==>
               host.findUsePath(scope, host.locate(name)[i]).Some?
               && host.findUsePath(scope, host.locate(name)[i]).value.segments != []
    ensures ProposedImports(host, scope, name) ==
              set i | 0 <= i < MaxImports :: host.findUsePath(scope, host.locate(name)[i]).value
  {
    CappedCandidatesOfImportableHead(host, scope, name);
    var defs := host.locate(name);
    var kept := Take(Candidates(host, scope, name), MaxImports);
    var expected := set i | 0 <= i < MaxImports :: host.findUsePath(scope, defs[i]).value;
    forall p | p in Elements(kept) ensures p in expected {
      var i :| 0 <= i < |kept| && kept[i] == p;
      assert p == host.findUsePath(scope, defs[i]).value;
    }
    forall p | p in expected ensures p in Elements(kept) {
      var i :| 0 <= i < MaxImports && p == host.findUsePath(scope, defs[i]).value;
      assert kept[i] == p;
    }
    assert ProposedImports(host, scope, name) == Elements(kept);
  }

  /** The cap is applied before duplicates collapse: twenty located definitions
      sharing one path crowd out every later one, so a single import is offered
      even when many distinct importable paths exist further on. */
  lemma CapBeforeDedup<Def>(host: Host<Def>, scope: ModuleId, name: Name, p: ModPath)
    requires |host.locate(name)| >= MaxImports
    requires p.segments != []
    requires forall i :: 0 <= i < MaxImports ==> host.findUsePath(scope, host.locate(name)[i]) == Some(p)
    ensures ProposedImports(host, scope, name) == {p}
  {
    CapTakesFirstImportable(host, scope, name);
    assert host.findUsePath(scope, host.locate(name)[0]).value == p;
  }

  /** When there are at least `MaxImports` candidates and the first
      `MaxImports` of them are pairwise distinct, exactly `MaxImports` imports
      are offered. */
  lemma CapReachedWhenDistinct<Def>(host: Host<Def>, scope: ModuleId, name: Name)
    requires |Candidates(host, scope, name)| >= MaxImports
    requires Distinct(Take(Candidates(host, scope, name), MaxImports))
    ensures |ProposedImports(host, scope, name)| == MaxImports
  {
    DistinctElementsCard(Take(Candidates(host, scope, name), MaxImports));
  }

  // ---------------------------------------------------------------------------
  // Emission

  /** Alternatives built from paths that render differently carry different
      labels, so the user can tell every offered import apart. */
  lemma DistinctLabels(render: ModPath -> string, g: Group, order: seq<ModPath>, actions: seq<Action>)
    requires Distinct(order) && |actions| == |order|
    requires forall i :: 0 <= i < |order| ==>
               actions[i] == ImportToAction(render(order[i]), g.anchor, g.target)
    requires forall p, q :: p in g.imports && q in g.imports && p != q ==> render(p) != render(q)
    requires Elements(order) == g.imports
    ensures forall i, j :: 0 <= i < j < |actions| ==> actions[i].title != actions[j].title
  {
  }

  // ---------------------------------------------------------------------------
  // The assist's test scenarios

  const debugPath := ModPath(Plain, ["std", "ops", "Debug"])

  /** A host whose locator finds one definition, importable as `std::ops::Debug`,
      and in which nothing resolves. */
  function DebugHost(): Host<nat>
  {
    Host(a => Some(0), (a, p) => false, n => "Debug", n => [7], (m, d) => Some(debugPath), p => "std::ops::Debug")
  }

  /** The same host with a locator that finds nothing. */
  function EmptyHost(): Host<nat>
  {
    DebugHost().(locate := n => [])
  }

  /** `Debug<|>` at the top level of a file: the identifier token under a
      `NameRef`, under a `Path`, under the source file (node 0). */
  function TopLevelCursor(): Cursor
  {
    var file := Node(0, SourceFile, None);
    var path := Node(1, Path, None);
    var nameRef := Node(2, NameRef, None);
    Cursor(Some([path, file]), TokenElement(Other(0), [nameRef, path, file]))
  }

  /** `use Debug<|>;`: the same identifier, inside a `use` item. */
  function UseCursor(): Cursor
  {
    var file := Node(0, SourceFile, None);
    var useItem := Node(3, UseItem, None);
    var path := Node(1, Path, None);
    var nameRef := Node(2, NameRef, None);
    Cursor(Some([path, useItem, file]), TokenElement(Other(0), [nameRef, path, useItem, file]))
  }

  /** One locator answer gives one import, anchored at the file, fixing the path. */
  lemma FoundImportExample()
    ensures AutoImport(DebugHost(), TopLevelCursor()) ==
              Some(Group(GroupId, GroupLabel, 0, 1, {debugPath}))
  {
    var host := DebugHost();
    var c := TopLevelCursor();
    assert FindKind(c.pathAtOffset.value, SourceFile) == Some(1);
    assert InsertionAnchor(c.pathAtOffset.value) == Some(0);
    assert FindKind(Ancestors(c.covering), Path) == Some(1);
    assert ResolutionGuard(host, 0, c.covering) == Some(Site(0, 0, 1));
    assert ApplicableNameRef(c.covering) == Some(Node(2, NameRef, None));
    assert host.asName(2) == "Debug";
    assert host.locate("Debug") == [7];
    assert Candidates(host, 0, "Debug") == [debugPath];
    assert ProposedImports(host, 0, "Debug") == {debugPath};
  }

  /** No locator answer, no suggestion. */
  lemma NoImportsFoundExample()
    ensures AutoImport(EmptyHost(), TopLevelCursor()).None?
  {
  }

  /** Inside `use`, no suggestion even with the locator of the first scenario. */
  lemma InsideUseExample()
    ensures AutoImport(DebugHost(), UseCursor()).None?
  {
  }
}
