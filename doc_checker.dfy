/** The checker object: a mode fixed at construction and a reference to the
    compiler's diagnostic engine, which each visit appends to. Every method is
    proved against the functions of DocRules and DocWalk. */
module DocCommentChecking {
  import opened DocModel
  import opened DocRules
  import opened DocWalk

  /** The diagnostic sink: an append-only record of what was reported. */
  class DiagnosticEngine {
    var diagnostics: seq<Diag>

    constructor ()
      ensures diagnostics == []
    {
      diagnostics := [];
    }

    method Diagnose(x: Diag)
      modifies this
      ensures diagnostics == old(diagnostics) + [x]
    {
      diagnostics := diagnostics + [x];
    }
  }

  class Checker {
    const mode: Mode
    const diags: DiagnosticEngine

    /** Captures the run's mode and the compiler's diagnostic engine. */
    constructor (mode: Mode, diags: DiagnosticEngine)
      ensures this.mode == mode && this.diags == diags
    {
      this.mode := mode;
      this.diags := diags;
    }

    /** Reports each undescribed parameter, then a missing returns field,
        then a missing throws field. */
    method CheckConsistency(d: Decl, doc: DocParts)
      modifies diags
      ensures diags.diagnostics == old(diags.diagnostics) + ConsistencyDiags(d, doc)
    {
      ghost var ps: seq<Diag> := [];
      if d.params.Some? {
        var params := d.params.value;
        for i := 0 to |params|
          invariant diags.diagnostics
                 == old(diags.diagnostics) + MissingParamDiags(d, params[..i], doc.paramFields)
        {
          MissingParamDiagsStep(d, params, i, doc.paramFields);
          var found := FindParamField(doc.paramFields, params[i]);
          if found.None? {
            diags.Diagnose(MissingParam(d, params[i]));
          }
        }
        assert params[..|params|] == params;
        ps := MissingParamDiags(d, params, doc.paramFields);
      }
      assert ConsistencyDiags(d, doc) == ps + ReturnDiags(d, doc) + ThrowsDiags(d, doc);
      ghost var afterParams := diags.diagnostics;
      assert afterParams == old(diags.diagnostics) + ps;
      if d.fnType.Some? {
        var fty := d.fnType.value;
        if fty.result.Some? {
          if !fty.result.value.isVoid && doc.returnsField.None? {
            diags.Diagnose(MissingReturn(d));
          }
        }
        assert diags.diagnostics == afterParams + ReturnDiags(d, doc);
        if fty.isThrowing && doc.throwsField.None? {
          diags.Diagnose(MissingThrows(d));
        }
      }
      assert diags.diagnostics == afterParams + ReturnDiags(d, doc) + ThrowsDiags(d, doc);
      ConcatAssoc(old(diags.diagnostics), ps, ReturnDiags(d, doc), ThrowsDiags(d, doc));
    }

    /** The walker's callback for one declaration: emits what DeclDiags says
        and answers whether to descend into the declaration's members. */
    method WalkToDeclPre(d: Decl) returns (descend: bool)
      modifies diags
      ensures descend == Descends(mode, d)
      ensures diags.diagnostics == old(diags.diagnostics) + DeclDiags(mode, d)
    {
      if mode == Disabled {
        return false;
      }
      match d.kind {
        case Class | Struct | Enum | EnumElement | Protocol | Constructor | Func
           | Var | Subscript | TypeAlias | AssociatedType | EnumCase =>
        case _ =>
          return true;
      }
      if d.exempt {
        return false;
      }
      var doc := d.doc;
      if doc.None? || doc.value.IsEmpty() {
        diags.Diagnose(MissingDoc(d));
        return true;
      }
      if mode == Consistency && IsAbstractFunction(d.kind) {
        CheckConsistency(d, doc.value);
      }
      return true;
    }

    /** Walks `t` in pre-order, visiting a node's members only when its visit
        says to descend. */
    method Walk(t: Tree)
      modifies diags
      ensures diags.diagnostics == old(diags.diagnostics) + WalkDiags(mode, t)
      decreases t
    {
      var descend := WalkToDeclPre(t.decl);
      ghost var visited := diags.diagnostics;
      if descend {
        var children := t.children;
        for i := 0 to |children|
          invariant diags.diagnostics == visited + ForestDiags(mode, children[..i])
        {
          ForestDiagsStep(mode, children, i);
          ghost var before := diags.diagnostics;
          assert children[i] in t.children;
          Walk(children[i]);
          assert diags.diagnostics == before + WalkDiags(mode, children[i]);
          ConcatAssoc(visited, ForestDiags(mode, children[..i]), WalkDiags(mode, children[i]), []);
        }
        assert children[..|children|] == children;
      }
    }
  }

  /** Two checkers over the same tree report the same diagnostics in the same
      order: the walk's output depends only on the mode and the tree. */
  method WalkTwice(mode: Mode, t: Tree) returns (first: seq<Diag>, second: seq<Diag>)
    ensures first == second == WalkDiags(mode, t)
  {
    var e1 := new DiagnosticEngine();
    var c1 := new Checker(mode, e1);
    c1.Walk(t);
    first := e1.diagnostics;
    var e2 := new DiagnosticEngine();
    var c2 := new Checker(mode, e2);
    c2.Walk(t);
    second := e2.diagnostics;
  }
}
