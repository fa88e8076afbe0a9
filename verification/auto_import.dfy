/** The `auto_import` assist: for an unresolved name under the cursor, either
    no suggestion or one group of alternative "Import `p`" actions. The
    semantic resolver, the symbol locator and the path renderer are oracles
    gathered in `Host`; what remains is a pure pipeline over their answers. */
module AutoImportAssist {
  import opened Wrappers
  import opened Syntax
  import opened Seqs

  type Name = string
  type ModuleId = nat

  /** How an import path is anchored. Only `Plain` is named in the assist; the
      other variants stand in for the rest of hir's path kinds, and the model
      only ever compares kinds for equality. */
  datatype PathKind = Plain | Super(level: nat) | Crate | Abs | DollarCrate(krate: nat)

  /** An import path: its anchoring kind and its segments. */
  datatype ModPath = ModPath(kind: PathKind, segments: seq<Name>)

  /** The collaborators the assist consults, as pure oracles.
      - `moduleOf(anchor)`: the module the source analyzer at `anchor` sees;
      - `resolves(anchor, path)`: whether the path node resolves in that scope;
      - `asName(nameRef)`: the name a name-reference node denotes;
      - `locate(name)`: the definitions the imports locator finds for a name;
      - `findUsePath(module, def)`: the path under which `def` can be imported
        into `module`, if any;
      - `render(path)`: the text a path displays as. */
  datatype Host<!Def> = Host(
    moduleOf: NodeId -> Option<ModuleId>,
    resolves: (NodeId, NodeId) -> bool,
    asName: NodeId -> Name,
    locate: Name -> seq<Def>,
    findUsePath: (ModuleId, Def) -> Option<ModPath>,
    render: ModPath -> string)

  /** The cursor as the assist queries it: the ancestor walk of the `Path` node
      found at the offset (`None` when there is none), and the covering element. */
  datatype Cursor = Cursor(pathAtOffset: Option<seq<Node>>, covering: Element)

  /** Where the import goes, the module it is resolved in, and the path node it fixes. */
  datatype Site = Site(anchor: NodeId, scope: ModuleId, target: NodeId)

  /** The grouped suggestion: its id and label, the insertion anchor, the path
      node being fixed, and the set of distinct imports to offer. */
  datatype Group = Group(id: string, title: string, anchor: NodeId, target: NodeId, imports: set<ModPath>)

  /** One alternative: its label and what its edit is built from. */
  datatype Action = Action(title: string, anchor: NodeId, target: NodeId, importText: string)

  const MaxImports: nat := 20
  const GroupId := "auto_import"
  const GroupLabel := "auto import"
  const LabelPrefix := "Import `"
  const LabelSuffix := "`"

  // ---------------------------------------------------------------------------
  // Step 1: insertion position

  /** The node a new `use` is inserted into, from the ancestor walk of the path:
      the item list of the innermost enclosing `mod` when that `mod` has one,
      otherwise the enclosing source file, otherwise nothing. */
  function InsertionAnchor(ancestors: seq<Node>): (r: Option<NodeId>)
    ensures forall i :: IsFirstOfKind(ancestors, i, Module) && ancestors[i].itemList.Some? ==>
              r == ancestors[i].itemList
    ensures (forall i :: IsFirstOfKind(ancestors, i, Module) ==> ancestors[i].itemList.None?) ==>
              && (forall i :: IsFirstOfKind(ancestors, i, SourceFile) ==> r == Some(ancestors[i].id))
              && (!HasKind(ancestors, SourceFile) ==> r.None?)
  {
    var enclosing := FindKind(ancestors, Module);
    if enclosing.Some? && ancestors[enclosing.value].itemList.Some? then
      ancestors[enclosing.value].itemList
    else
      match FindKind(ancestors, SourceFile)
      case Some(f) => Some(ancestors[f].id)
      case None => None
  }

  // ---------------------------------------------------------------------------
  // Step 2: resolution guard

  /** The scope the import is computed in and the path it fixes; `None` when the
      analyzer sees no module, when no `Path` encloses the covering element, or
      when that path already resolves. */
  function ResolutionGuard<Def>(host: Host<Def>, anchor: NodeId, covering: Element): (r: Option<Site>)
    ensures r.Some? <==>
              && host.moduleOf(anchor).Some?
              && HasKind(Ancestors(covering), Path)
              && forall i :: IsFirstOfKind(Ancestors(covering), i, Path) ==>
                   !host.resolves(anchor, Ancestors(covering)[i].id)
    ensures r.Some? ==>
              && r.value.anchor == anchor
              && host.moduleOf(anchor) == Some(r.value.scope)
              && exists i :: IsFirstOfKind(Ancestors(covering), i, Path) && Ancestors(covering)[i].id == r.value.target
  {
    match host.moduleOf(anchor)
    case None => None
    case Some(m) =>
      match FindKind(Ancestors(covering), Path)
      case None => None
      case Some(p) =>
        var target := Ancestors(covering)[p].id;
        if host.resolves(anchor, target) then None else Some(Site(anchor, m, target))
  }

  // ---------------------------------------------------------------------------
  // Step 3: the applicable name reference

  /** The name reference the import is for: none inside a `use` item; otherwise
      the covering element itself when it is a `NameRef` node, else its parent
      when that is a `NameRef`, else none. */
  function ApplicableNameRef(e: Element): (r: Option<Node>)
    ensures HasKind(Ancestors(e), UseItem) ==> r.None?
    ensures !HasKind(Ancestors(e), UseItem) && e.NodeElement? && e.node.kind == NameRef ==>
              r == Some(e.node)
    ensures !HasKind(Ancestors(e), UseItem) && Kind(e) != NameRef && |e.above| > 0 && e.above[0].kind == NameRef ==>
              r == Some(e.above[0])
    ensures r.Some? ==>
              && r.value.kind == NameRef
              && ((e.NodeElement? && r.value == e.node) || (Kind(e) != NameRef && r == Parent(e)))
  {
    if FindKind(Ancestors(e), UseItem).Some? then None
    else if Kind(e) == NameRef then
      (if e.NodeElement? then Some(e.node) else None)
    else
      match Parent(e)
      case None => None
      case Some(parent) => if parent.kind == NameRef then Some(parent) else None
  }

  // ---------------------------------------------------------------------------
  // Step 4: candidate pipeline

  /** Each definition mapped through `usePath`, dropping definitions with no
      use path and paths with no segments, in the locator's order. */
  function UsePaths<Def>(usePath: Def -> Option<ModPath>, defs: seq<Def>): (r: seq<ModPath>)
    ensures |r| <= |defs|
    ensures forall p :: p in r ==> p.segments != [] && exists d :: d in defs && usePath(d) == Some(p)
    ensures forall d :: d in defs && usePath(d).Some? && usePath(d).value.segments != [] ==>
              usePath(d).value in r
    decreases |defs|
  {
    if |defs| == 0 then []
    else
      var rest := UsePaths(usePath, defs[1..]);
      assert forall d :: d in defs[1..] ==> d in defs;
      match usePath(defs[0])
      case Some(p) => if p.segments != [] then [p] + rest else rest
      case None => rest
  }

  /** Mapping and filtering commute with concatenation: the locator's order is kept. */
  lemma {:induction false} UsePathsAppend<Def>(f: Def -> Option<ModPath>, a: seq<Def>, b: seq<Def>)
    ensures UsePaths(f, a + b) == UsePaths(f, a) + UsePaths(f, b)
    decreases |a|
  {
    if |a| == 0 {
      assert a + b == b;
    } else {
      assert (a + b)[0] == a[0];
      assert (a + b)[1..] == a[1..] + b;
      UsePathsAppend(f, a[1..], b);
    }
  }

  /** The candidates a single definition contributes: its use path when that has segments. */
  function Contribution<Def>(f: Def -> Option<ModPath>, d: Def): seq<ModPath>
  {
    if f(d).Some? && f(d).value.segments != [] then [f(d).value] else []
  }

  /** The candidates of a non-empty sequence: the first definition's, then the rest's. */
  lemma UsePathsCons<Def>(f: Def -> Option<ModPath>, defs: seq<Def>)
    requires |defs| > 0
    ensures UsePaths(f, defs) == Contribution(f, defs[0]) + UsePaths(f, defs[1..])
  {
  }

  /** Each candidate comes from one located definition, and the candidates
      before it are exactly those of the definitions before that one. */
  lemma {:induction false} UsePathsOrigin<Def>(f: Def -> Option<ModPath>, defs: seq<Def>, k: nat)
    requires k < |UsePaths(f, defs)|
    ensures exists j :: 0 <= j < |defs| && f(defs[j]) == Some(UsePaths(f, defs)[k])
                        && |UsePaths(f, defs[..j])| == k
    decreases |defs|
  {
    UsePathsCons(f, defs);
    var c := Contribution(f, defs[0]);
    if |c| == 1 && k == 0 {
      assert defs[..0] == [];
    } else {
      var rest := UsePaths(f, defs[1..]);
      var k' := k - |c|;
      assert UsePaths(f, defs)[k] == rest[k'];
      UsePathsOrigin(f, defs[1..], k');
      var j' :| 0 <= j' < |defs[1..]| && f(defs[1..][j']) == Some(rest[k']) && |UsePaths(f, defs[1..][..j'])| == k';
      var pre := defs[..j' + 1];
      assert pre[0] == defs[0] && pre[1..] == defs[1..][..j'];
      UsePathsCons(f, pre);
      assert defs[j' + 1] == defs[1..][j'];
    }
  }

  /** The importable paths `scope` gets for the located definitions of `name`. */
  function Candidates<Def>(host: Host<Def>, scope: ModuleId, name: Name): seq<ModPath>
  {
    UsePaths(d => host.findUsePath(scope, d), host.locate(name))
  }

  /** The candidates contributed by the first `j` located definitions of `name`. */
  function CandidatesBefore<Def>(host: Host<Def>, scope: ModuleId, name: Name, j: nat): seq<ModPath>
    requires j <= |host.locate(name)|
  {
    UsePaths(d => host.findUsePath(scope, d), host.locate(name)[..j])
  }

  /** An importable definition that fewer than `MaxImports` candidates precede
      falls within the cap. */
  lemma {:induction false} CandidateWithinCap<Def>(host: Host<Def>, scope: ModuleId, name: Name, j: nat)
    requires j < |host.locate(name)|
    requires host.findUsePath(scope, host.locate(name)[j]).Some?
    requires host.findUsePath(scope, host.locate(name)[j]).value.segments != []
    requires |CandidatesBefore(host, scope, name, j)| < MaxImports
    ensures host.findUsePath(scope, host.locate(name)[j]).value in Take(Candidates(host, scope, name), MaxImports)
  {
    var f := d => host.findUsePath(scope, d);
    var defs := host.locate(name);
    var p := host.findUsePath(scope, defs[j]).value;
    assert defs == defs[..j] + ([defs[j]] + defs[j + 1..]);
    UsePathsAppend(f, defs[..j], [defs[j]] + defs[j + 1..]);
    UsePathsAppend(f, [defs[j]], defs[j + 1..]);
    assert UsePaths(f, [defs[j]]) == [p] by {
      assert [defs[j]][1..] == [];
    }
    var k := |UsePaths(f, defs[..j])|;
    assert Candidates(host, scope, name)[k] == p;
    assert Take(Candidates(host, scope, name), MaxImports)[k] == p;
  }

  /** The proposed imports: the first `MaxImports` candidates, collected into a
      set. The cap is applied before duplicates collapse. */
  function ProposedImports<Def>(host: Host<Def>, scope: ModuleId, name: Name): (r: set<ModPath>)
    ensures forall p :: p in r ==>
              && p.segments != []
              && exists d :: d in host.locate(name) && host.findUsePath(scope, d) == Some(p)
    ensures forall p :: p in r ==>
              exists j :: 0 <= j < |host.locate(name)|
                          && host.findUsePath(scope, host.locate(name)[j]) == Some(p)
                          && |CandidatesBefore(host, scope, name, j)| < MaxImports
    ensures |r| <= MaxImports
    ensures |r| <= |Candidates(host, scope, name)|
    ensures forall j :: 0 <= j < |host.locate(name)|
                        && host.findUsePath(scope, host.locate(name)[j]).Some?
                        && host.findUsePath(scope, host.locate(name)[j]).value.segments != []
                        && |CandidatesBefore(host, scope, name, j)| < MaxImports ==>
              host.findUsePath(scope, host.locate(name)[j]).value in r
    ensures r == {} <==>
              forall d :: d in host.locate(name) ==>
                host.findUsePath(scope, d).None? || host.findUsePath(scope, d).value.segments == []
  {
    var all := Candidates(host, scope, name);
    var kept := Take(all, MaxImports);
    ElementsCard(kept);
    ElementsEmpty(kept);
    ElementsEmpty(all);
    assert forall p :: p in kept ==> p in all;
    forall j | 0 <= j < |host.locate(name)|
               && host.findUsePath(scope, host.locate(name)[j]).Some?
               && host.findUsePath(scope, host.locate(name)[j]).value.segments != []
               && |CandidatesBefore(host, scope, name, j)| < MaxImports
      ensures host.findUsePath(scope, host.locate(name)[j]).value in kept
    {
      CandidateWithinCap(host, scope, name, j);
    }
    forall p | p in kept
      ensures exists j :: 0 <= j < |host.locate(name)|
                          && host.findUsePath(scope, host.locate(name)[j]) == Some(p)
                          && |CandidatesBefore(host, scope, name, j)| < MaxImports
    {
      var k :| 0 <= k < |kept| && kept[k] == p;
      UsePathsOrigin(d => host.findUsePath(scope, d), host.locate(name), k);
    }
    Elements(kept)
  }

  // ---------------------------------------------------------------------------
  // Step 5: emission

  /** The whole assist: no suggestion, or the group of distinct proposed imports. */
  function AutoImport<Def>(host: Host<Def>, cursor: Cursor): (r: Option<Group>)
    ensures r.Some? ==>
              && r.value.id == GroupId
              && r.value.title == GroupLabel
              && r.value.imports != {}
              && |r.value.imports| <= MaxImports
              && forall p :: p in r.value.imports ==> p.segments != []
    ensures r.Some? ==>
              && cursor.pathAtOffset.Some?
              && InsertionAnchor(cursor.pathAtOffset.value) == Some(r.value.anchor)
              && !HasKind(Ancestors(cursor.covering), UseItem)
              && exists i :: IsFirstOfKind(Ancestors(cursor.covering), i, Path)
                             && Ancestors(cursor.covering)[i].id == r.value.target
                             && !host.resolves(r.value.anchor, r.value.target)
    ensures r.Some? ==>
              && ApplicableNameRef(cursor.covering).Some?
              && host.moduleOf(r.value.anchor).Some?
              && forall p :: p in r.value.imports ==>
                   exists d :: d in host.locate(host.asName(ApplicableNameRef(cursor.covering).value.id))
                               && host.findUsePath(host.moduleOf(r.value.anchor).value, d) == Some(p)
    ensures r.Some? ==>
              && ApplicableNameRef(cursor.covering).Some?
              && host.moduleOf(r.value.anchor).Some?
              && r.value.imports == ProposedImports(host, host.moduleOf(r.value.anchor).value,
                                                    host.asName(ApplicableNameRef(cursor.covering).value.id))
  {
    match cursor.pathAtOffset
    case None => None
    case Some(ancestors) =>
      match InsertionAnchor(ancestors)
      case None => None
      case Some(anchor) =>
        match ResolutionGuard(host, anchor, cursor.covering)
        case None => None
        case Some(site) =>
          match ApplicableNameRef(cursor.covering)
          case None => None
          case Some(nameRef) =>
            var imports := ProposedImports(host, site.scope, host.asName(nameRef.id));
            if imports == {} then None
            else Some(Group(GroupId, GroupLabel, site.anchor, site.target, imports))
  }

  /** The text between the backticks of an action label, if it is one. */
  function LabelText(title: string): Option<string>
  {
    if |title| >= |LabelPrefix| + |LabelSuffix|
       && title[..|LabelPrefix|] == LabelPrefix
       && title[|title| - |LabelSuffix|..] == LabelSuffix
    then Some(title[|LabelPrefix|..|title| - |LabelSuffix|])
    else None
  }

  /** The label of the action importing the path rendered as `text`. */
  function Label(text: string): (r: string)
    ensures LabelText(r) == Some(text)
  {
    var r := LabelPrefix + text + LabelSuffix;
    assert r[..|LabelPrefix|] == LabelPrefix;
    assert r[|r| - |LabelSuffix|..] == LabelSuffix;
    assert r[|LabelPrefix|..|r| - |LabelSuffix|] == text;
    r
  }

  /** The action importing the path rendered as `text` at `anchor`, fixing `target`. */
  function ImportToAction(text: string, anchor: NodeId, target: NodeId): (a: Action)
    ensures LabelText(a.title) == Some(a.importText) && a.importText == text
    ensures a.anchor == anchor && a.target == target
  {
    Action(Label(text), anchor, target, text)
  }

  /** The alternatives of a group, built when the group is expanded: one action
      per distinct import, in an unspecified order (`order` records it). */
  method Alternatives(render: ModPath -> string, g: Group) returns (order: seq<ModPath>, actions: seq<Action>)
    ensures Distinct(order) && Elements(order) == g.imports
    ensures |actions| == |order| == |g.imports|
    ensures forall i :: 0 <= i < |order| ==>
              actions[i] == ImportToAction(render(order[i]), g.anchor, g.target)
  {
    order := [];
    actions := [];
    var rest := g.imports;
    while rest != {}
      invariant Distinct(order)
      invariant Elements(order) + rest == g.imports
      invariant Elements(order) !! rest
      invariant |actions| == |order|
      invariant forall i :: 0 <= i < |order| ==>
                  actions[i] == ImportToAction(render(order[i]), g.anchor, g.target)
      decreases rest
    {
      var p :| p in rest;
      order := order + [p];
      actions := actions + [ImportToAction(render(p), g.anchor, g.target)];
      rest := rest - {p};
    }
    DistinctElementsCard(order);
  }
}
