/** A pre-order walk over a declaration tree that honours the checker's
    verdict: the children of a node are visited only when its visit says
    "descend". This is the contract the checker relies on from the walker. */
module DocWalk {
  import opened DocModel
  import opened DocRules

  /** A declaration with its member declarations, in source order. */
  datatype Tree = Node(decl: Decl, children: seq<Tree>)

  /** Every diagnostic a walk of `t` emits, in emission order. */
  function WalkDiags(mode: Mode, t: Tree): seq<Diag>
    decreases t, 1
  {
    DeclDiags(mode, t.decl)
    + (if Descends(mode, t.decl) then ForestDiags(mode, t.children) else [])
  }

  /** Every diagnostic a walk of the trees `ts`, one after the other, emits. */
  function ForestDiags(mode: Mode, ts: seq<Tree>): seq<Diag>
    decreases ts, 0
  {
    if ts == [] then []
    else ForestDiags(mode, ts[..|ts| - 1]) + WalkDiags(mode, ts[|ts| - 1])
  }

  /** Walking one more tree of a forest adds that tree's diagnostics. */
  lemma ForestDiagsStep(mode: Mode, ts: seq<Tree>, i: nat)
    requires i < |ts|
    ensures ForestDiags(mode, ts[..i + 1]) == ForestDiags(mode, ts[..i]) + WalkDiags(mode, ts[i])
  {
    assert ts[..i + 1][..i] == ts[..i];
  }

  /** The declarations a walk visits, in visiting order. */
  function Visited(mode: Mode, t: Tree): seq<Decl>
    decreases t, 1
  {
    [t.decl] + (if Descends(mode, t.decl) then VisitedForest(mode, t.children) else [])
  }

  function VisitedForest(mode: Mode, ts: seq<Tree>): seq<Decl>
    decreases ts, 0
  {
    if ts == [] then []
    else VisitedForest(mode, ts[..|ts| - 1]) + Visited(mode, ts[|ts| - 1])
  }

  /** In Disabled mode a walk emits nothing: the root is pruned at once. */
  lemma DisabledWalkSilent(t: Tree)
    ensures WalkDiags(Disabled, t) == []
    ensures Visited(Disabled, t) == [t.decl]
  {
  }

  /** An exempt declaration of a checked kind silences its whole subtree. */
  lemma ExemptSubtreeSilent(mode: Mode, t: Tree)
    requires IsCheckedKind(t.decl.kind) && t.decl.exempt
    ensures WalkDiags(mode, t) == []
  {
  }

  /** A node of an unchecked kind (an extension, say) contributes nothing
      itself, and its members are walked exactly as if they stood alone. */
  lemma UncheckedContainerTransparent(mode: Mode, t: Tree)
    requires mode != Disabled && !IsCheckedKind(t.decl.kind)
    ensures WalkDiags(mode, t) == ForestDiags(mode, t.children)
  {
  }

  /** The members of a checked, non-exempt container are walked whatever the
      container's own comment is. */
  lemma ContainerCommentIrrelevant(mode: Mode, t: Tree, doc: Option<DocParts>)
    requires mode != Disabled && IsCheckedKind(t.decl.kind) && !t.decl.exempt
    ensures WalkDiags(mode, t) == DeclDiags(mode, t.decl) + ForestDiags(mode, t.children)
    ensures WalkDiags(mode, Node(t.decl.(doc := doc), t.children))
         == DeclDiags(mode, t.decl.(doc := doc)) + ForestDiags(mode, t.children)
  {
  }

  /** Every diagnostic of a walk is about a declaration the walk visited. */
  lemma {:induction false} WalkDiagsAboutVisited(mode: Mode, t: Tree)
    ensures forall x :: x in WalkDiags(mode, t) ==> exists d :: d in Visited(mode, t) && IsAbout(x, d)
    decreases t, 1
  {
    if Descends(mode, t.decl) {
      ForestDiagsAboutVisited(mode, t.children);
    }
  }

  lemma {:induction false} ForestDiagsAboutVisited(mode: Mode, ts: seq<Tree>)
    ensures forall x :: x in ForestDiags(mode, ts) ==> exists d :: d in VisitedForest(mode, ts) && IsAbout(x, d)
    decreases ts, 0
  {
    if ts != [] {
      ForestDiagsAboutVisited(mode, ts[..|ts| - 1]);
      WalkDiagsAboutVisited(mode, ts[|ts| - 1]);
    }
  }

  /** In PresenceOnly mode a whole walk emits only missing-doc diagnostics,
      one per visited checked, non-exempt declaration with no usable comment. */
  lemma {:induction false} PresenceOnlyWalk(t: Tree)
    ensures forall x :: x in WalkDiags(PresenceOnly, t) ==> x.kind == MissingDocComment
    ensures WalkDiags(PresenceOnly, t) == MissingDocsOf(Visited(PresenceOnly, t))
    decreases t, 1
  {
    ConsistencyOnlyWhen(PresenceOnly, t.decl);
    if Descends(PresenceOnly, t.decl) {
      PresenceOnlyForest(t.children);
      MissingDocsOfAppend([t.decl], VisitedForest(PresenceOnly, t.children));
    } else {
      MissingDocsOfAppend([t.decl], []);
    }
    MissingDocsOfOne(t.decl);
  }

  lemma {:induction false} PresenceOnlyForest(ts: seq<Tree>)
    ensures forall x :: x in ForestDiags(PresenceOnly, ts) ==> x.kind == MissingDocComment
    ensures ForestDiags(PresenceOnly, ts) == MissingDocsOf(VisitedForest(PresenceOnly, ts))
    decreases ts, 0
  {
    if ts != [] {
      PresenceOnlyForest(ts[..|ts| - 1]);
      PresenceOnlyWalk(ts[|ts| - 1]);
      MissingDocsOfAppend(VisitedForest(PresenceOnly, ts[..|ts| - 1]), Visited(PresenceOnly, ts[|ts| - 1]));
    }
  }

  /** The missing-doc diagnostics a PresenceOnly visit of each of `ds` emits,
      written independently of the visit: one for each checked, non-exempt,
      undocumented declaration. */
  function MissingDocsOf(ds: seq<Decl>): seq<Diag>
  {
    if ds == [] then []
    else
      var d := ds[0];
      (if IsCheckedKind(d.kind) && !d.exempt && !IsDocumented(d.doc) then [MissingDoc(d)] else [])
      + MissingDocsOf(ds[1..])
  }

  lemma {:induction false} MissingDocsOfAppend(a: seq<Decl>, b: seq<Decl>)
    ensures MissingDocsOf(a + b) == MissingDocsOf(a) + MissingDocsOf(b)
  {
    if a == [] {
      assert a + b == b;
    } else {
      assert (a + b)[1..] == a[1..] + b;
      MissingDocsOfAppend(a[1..], b);
    }
  }

  lemma MissingDocsOfOne(d: Decl)
    ensures MissingDocsOf([d]) == DeclDiags(PresenceOnly, d)
  {
  }

  lemma ForestDiagsOne(mode: Mode, t: Tree)
    ensures ForestDiags(mode, [t]) == WalkDiags(mode, t)
  {
  }

  /** A declaration with no comment at all, as in the presence test. */
  function Bare(kind: DeclKind, name: string, loc: nat, exempt: bool): Decl
  {
    Decl(kind, name, loc, exempt, None, None, None)
  }

  /** A public class and its method are both reported (presence test). */
  lemma PublicClassScenario()
    ensures
      var c := Bare(Class, "C", 10, false);
      var foo := Bare(Func, "foo()", 11, false);
      WalkDiags(PresenceOnly, Node(c, [Node(foo, [])])) == [MissingDoc(c), MissingDoc(foo)]
  {
    var foo := Bare(Func, "foo()", 11, false);
    ForestDiagsOne(PresenceOnly, Node(foo, []));
  }

  /** An extension is passed through to its public method (presence test). */
  lemma ExtensionScenario()
    ensures
      var inExt := Bare(Func, "inExt()", 28, false);
      WalkDiags(PresenceOnly, Node(Bare(Extension, "S", 27, false), [Node(inExt, [])]))
        == [MissingDoc(inExt)]
  {
    var inExt := Bare(Func, "inExt()", 28, false);
    ForestDiagsOne(PresenceOnly, Node(inExt, []));
  }

  /** Everything under an underscored struct is silent: the inner struct is
      pruned even when its own flag does not exempt it (presence test). */
  lemma UnderscoredOuterScenario()
    ensures
      WalkDiags(PresenceOnly, Node(Bare(Struct, "_Outer", 73, true),
                                   [Node(Bare(Struct, "Inner", 74, false), [])])) == []
  {
  }

  /** A deinitializer is never reported (presence test): its kind is not
      on the allow-list, so its visit only descends. */
  lemma DeinitScenario()
    ensures
      WalkDiags(PresenceOnly, Node(Bare(Destructor, "deinit", 86, false), [])) == []
  {
  }
}
