/** What one visit of a declaration decides and emits, as functions of the
    mode and the declaration, with the properties the checker promises. */
module DocRules {
  import opened DocModel

  // ---------------------------------------------------------------------
  // Diagnostics about one declaration

  function MissingDoc(d: Decl): Diag
  {
    Diag(MissingDocComment, d.loc, d.kind, d.name, None)
  }

  function MissingParam(d: Decl, p: string): Diag
  {
    Diag(MissingParamDescription, d.loc, d.kind, d.name, Some(p))
  }

  function MissingReturn(d: Decl): Diag
  {
    Diag(MissingReturnDescription, d.loc, d.kind, d.name, None)
  }

  function MissingThrows(d: Decl): Diag
  {
    Diag(MissingThrowsDescription, d.loc, d.kind, d.name, None)
  }

  /** True when `x` is a diagnostic about declaration `d`. */
  predicate IsAbout(x: Diag, d: Decl)
  {
    x.loc == d.loc && x.declKind == d.kind && x.declName == d.name
  }

  /** The position of each diagnostic kind in the order one visit emits them. */
  function Rank(k: DiagKind): nat
  {
    match k
    case MissingDocComment => 0
    case MissingParamDescription => 1
    case MissingReturnDescription => 2
    case MissingThrowsDescription => 3
  }

  /** The diagnostics come in the order missing-doc, params, return, throws. */
  predicate InEmissionOrder(r: seq<Diag>)
  {
    forall i, j :: 0 <= i < j < |r| ==> Rank(r[i].kind) <= Rank(r[j].kind)
  }

  // ---------------------------------------------------------------------
  // Parameter fields

  /** The first parameter field named `name`, searched front to back. */
  function FindParamField(fields: seq<ParamField>, name: string): (r: Option<nat>)
    ensures r.Some? ==> r.value < |fields| && fields[r.value].name == name
    ensures r.Some? ==> forall j :: 0 <= j < r.value ==> fields[j].name != name
    ensures r.None? <==> forall j :: 0 <= j < |fields| ==> fields[j].name != name
  {
    if fields == [] then None
    else if fields[0].name == name then Some(0)
    else match FindParamField(fields[1..], name)
      case None => None
      case Some(k) => Some(k + 1)
  }

  /** A parameter is described when some field carries its name. */
  predicate IsDescribed(fields: seq<ParamField>, p: string)
  {
    FindParamField(fields, p).Some?
  }

  /** The parameters that no field describes, in parameter-list order. */
  function Undescribed(params: seq<string>, fields: seq<ParamField>): (u: seq<string>)
    ensures |u| <= |params|
  {
    if params == [] then []
    else
      (if IsDescribed(fields, params[0]) then [] else [params[0]])
      + Undescribed(params[1..], fields)
  }

  /** A name is undescribed exactly when it is a parameter that no field names. */
  lemma {:induction false} UndescribedMembers(params: seq<string>, fields: seq<ParamField>, p: string)
    ensures p in Undescribed(params, fields) <==> p in params && !IsDescribed(fields, p)
  {
    if params != [] {
      UndescribedMembers(params[1..], fields, p);
      assert params == [params[0]] + params[1..];
    }
  }

  lemma {:induction false} UndescribedAppend(params: seq<string>, p: string, fields: seq<ParamField>)
    ensures Undescribed(params + [p], fields)
         == Undescribed(params, fields) + (if IsDescribed(fields, p) then [] else [p])
  {
    if params != [] {
      assert (params + [p])[1..] == params[1..] + [p];
      UndescribedAppend(params[1..], p, fields);
    }
  }

  /** The parameter diagnostics after the loop has handled `params`: one per
      undescribed parameter, in parameter-list order. */
  function MissingParamDiags(d: Decl, params: seq<string>, fields: seq<ParamField>): (r: seq<Diag>)
    ensures |r| == |Undescribed(params, fields)|
    ensures forall i :: 0 <= i < |r| ==> r[i] == MissingParam(d, Undescribed(params, fields)[i])
    ensures forall x :: x in r ==> x.kind == MissingParamDescription && IsAbout(x, d)
  {
    if params == [] then []
    else
      var init, p := params[..|params| - 1], params[|params| - 1];
      assert params == init + [p];
      UndescribedAppend(init, p, fields);
      MissingParamDiags(d, init, fields)
      + (if IsDescribed(fields, p) then [] else [MissingParam(d, p)])
  }

  /** One more loop iteration adds at most the diagnostic for the next parameter. */
  lemma MissingParamDiagsStep(d: Decl, params: seq<string>, i: nat, fields: seq<ParamField>)
    requires i < |params|
    ensures MissingParamDiags(d, params[..i + 1], fields)
         == MissingParamDiags(d, params[..i], fields)
            + (if IsDescribed(fields, params[i]) then [] else [MissingParam(d, params[i])])
  {
    assert params[..i + 1][..i] == params[..i];
  }

  /** The return diagnostic: a non-Void result with no `- returns:` field. */
  function ReturnDiags(d: Decl, doc: DocParts): seq<Diag>
  {
    if d.fnType.Some? && d.fnType.value.result.Some?
       && !d.fnType.value.result.value.isVoid && doc.returnsField.None?
    then [MissingReturn(d)]
    else []
  }

  /** The throws diagnostic: a throwing function with no `- throws:` field. */
  function ThrowsDiags(d: Decl, doc: DocParts): seq<Diag>
  {
    if d.fnType.Some? && d.fnType.value.isThrowing && doc.throwsField.None?
    then [MissingThrows(d)]
    else []
  }

  /** Everything the consistency check emits for function `d` and comment `doc`. */
  function ConsistencyDiags(d: Decl, doc: DocParts): (r: seq<Diag>)
    ensures forall x :: x in r ==> IsAbout(x, d) && x.kind != MissingDocComment
    ensures InEmissionOrder(r)
  {
    var ps := if d.params.Some? then MissingParamDiags(d, d.params.value, doc.paramFields) else [];
    OrderedBlocks(ps, ReturnDiags(d, doc), ThrowsDiags(d, doc));
    ps + ReturnDiags(d, doc) + ThrowsDiags(d, doc)
  }

  /** Blocks of parameter, return and throws diagnostics, appended in that
      order, are in emission order. */
  lemma OrderedBlocks(ps: seq<Diag>, rs: seq<Diag>, ts: seq<Diag>)
    requires forall x :: x in ps ==> x.kind == MissingParamDescription
    requires forall x :: x in rs ==> x.kind == MissingReturnDescription
    requires forall x :: x in ts ==> x.kind == MissingThrowsDescription
    ensures InEmissionOrder(ps + rs + ts)
  {
    var r := ps + rs + ts;
    forall i, j | 0 <= i < j < |r|
      ensures Rank(r[i].kind) <= Rank(r[j].kind)
    {
      if i < |ps| {
        assert r[i] in ps;
      } else if i < |ps| + |rs| {
        assert r[i] in rs;
        assert r[j] in rs || r[j] in ts;
      } else {
        assert r[i] in ts && r[j] in ts;
      }
    }
  }

  // ---------------------------------------------------------------------
  // One visit

  /** The four ways a visit can go. */
  datatype Outcome = PruneDisabled | DescendUnchecked | PruneExempt | CheckAndDescend

  function Classify(mode: Mode, d: Decl): Outcome
  {
    if mode == Disabled then PruneDisabled
    else if !IsCheckedKind(d.kind) then DescendUnchecked
    else if d.exempt then PruneExempt
    else CheckAndDescend
  }

  /** The verdict returned to the walker: descend into the children or not. */
  predicate Descends(mode: Mode, d: Decl)
  {
    Classify(mode, d) in {DescendUnchecked, CheckAndDescend}
  }

  /** The diagnostics one visit of `d` emits. */
  function DeclDiags(mode: Mode, d: Decl): (r: seq<Diag>)
    ensures forall x :: x in r ==> IsAbout(x, d)
    ensures InEmissionOrder(r)
    ensures r != [] ==> Classify(mode, d) == CheckAndDescend
  {
    if Classify(mode, d) != CheckAndDescend then []
    else if !IsDocumented(d.doc) then [MissingDoc(d)]
    else if mode == Consistency && IsAbstractFunction(d.kind) then ConsistencyDiags(d, d.doc.value)
    else []
  }

  // ---------------------------------------------------------------------
  // Properties of one visit

  /** In Disabled mode nothing is emitted and every subtree is pruned. */
  lemma DisabledPrunesSilently(d: Decl)
    ensures !Descends(Disabled, d) && DeclDiags(Disabled, d) == []
  {
  }

  /** A kind outside the allow-list emits nothing and is descended into. */
  lemma UncheckedKindDescends(mode: Mode, d: Decl)
    requires mode != Disabled && !IsCheckedKind(d.kind)
    ensures Descends(mode, d) && DeclDiags(mode, d) == []
  {
  }

  /** An exempt declaration of a checked kind emits nothing and is pruned. */
  lemma ExemptPrunes(mode: Mode, d: Decl)
    requires IsCheckedKind(d.kind) && d.exempt
    ensures !Descends(mode, d) && DeclDiags(mode, d) == []
  {
  }

  /** Every checked, non-exempt declaration is descended into, documented or not. */
  lemma CheckedDeclDescends(mode: Mode, d: Decl)
    requires mode != Disabled && IsCheckedKind(d.kind) && !d.exempt
    ensures Descends(mode, d)
  {
  }

  /** A checked, non-exempt declaration without a usable comment gets exactly
      one missing-doc diagnostic and nothing else; and the missing-doc
      diagnostic is emitted only then. */
  lemma MissingDocIsAlone(mode: Mode, d: Decl)
    ensures MissingDoc(d) in DeclDiags(mode, d)
        <==> Classify(mode, d) == CheckAndDescend && !IsDocumented(d.doc)
    ensures Classify(mode, d) == CheckAndDescend && !IsDocumented(d.doc)
        ==> DeclDiags(mode, d) == [MissingDoc(d)]
  {
  }

  /** The condition under which the consistency check runs at all. */
  predicate RunsConsistency(mode: Mode, d: Decl)
  {
    Classify(mode, d) == CheckAndDescend && IsDocumented(d.doc)
    && mode == Consistency && IsAbstractFunction(d.kind)
  }

  /** Param, return and throws diagnostics appear only when the mode is
      Consistency, the comment is non-empty and the node is a function;
      PresenceOnly mode never emits them. */
  lemma ConsistencyOnlyWhen(mode: Mode, d: Decl)
    ensures (exists x :: x in DeclDiags(mode, d) && x.kind != MissingDocComment)
        ==> RunsConsistency(mode, d)
    ensures mode == PresenceOnly
        ==> forall x :: x in DeclDiags(mode, d) ==> x.kind == MissingDocComment
  {
  }

  /** A parameter is reported exactly when the consistency check runs, the
      node has a parameter list containing it, and no field describes it. */
  lemma ParamDiagIff(mode: Mode, d: Decl, p: string)
    ensures MissingParam(d, p) in DeclDiags(mode, d)
        <==> RunsConsistency(mode, d) && d.params.Some?
             && p in d.params.value && !IsDescribed(d.doc.value.paramFields, p)
  {
    if RunsConsistency(mode, d) {
      var doc := d.doc.value;
      if d.params.Some? {
        var u := Undescribed(d.params.value, doc.paramFields);
        UndescribedMembers(d.params.value, doc.paramFields, p);
        var ps := MissingParamDiags(d, d.params.value, doc.paramFields);
        if p in u {
          var i :| 0 <= i < |u| && u[i] == p;
          assert ps[i] == MissingParam(d, p);
        }
        assert MissingParam(d, p) in ps ==> p in u;
      }
    }
  }

  /** A return diagnostic, and exactly one, when the consistency check runs, the node
      has a function type with a non-Void result, and there is no returns field. */
  lemma ReturnDiagIff(mode: Mode, d: Decl)
    ensures MissingReturn(d) in DeclDiags(mode, d)
        <==> RunsConsistency(mode, d) && d.fnType.Some? && d.fnType.value.result.Some?
             && !d.fnType.value.result.value.isVoid && d.doc.value.returnsField.None?
    ensures multiset(DeclDiags(mode, d))[MissingReturn(d)]
        == if RunsConsistency(mode, d) && d.fnType.Some? && d.fnType.value.result.Some?
              && !d.fnType.value.result.value.isVoid && d.doc.value.returnsField.None?
           then 1 else 0
  {
    if RunsConsistency(mode, d) {
      var doc := d.doc.value;
      var ps := if d.params.Some? then MissingParamDiags(d, d.params.value, doc.paramFields) else [];
      assert DeclDiags(mode, d) == ps + ReturnDiags(d, doc) + ThrowsDiags(d, doc);
      assert MissingReturn(d) !in ps;
      assert MissingReturn(d) !in ThrowsDiags(d, doc);
    }
  }

  /** A throws diagnostic, and exactly one, when the consistency check runs, the node
      has a throwing function type, and there is no throws field. */
  lemma ThrowsDiagIff(mode: Mode, d: Decl)
    ensures MissingThrows(d) in DeclDiags(mode, d)
        <==> RunsConsistency(mode, d) && d.fnType.Some? && d.fnType.value.isThrowing
             && d.doc.value.throwsField.None?
    ensures multiset(DeclDiags(mode, d))[MissingThrows(d)]
        == if RunsConsistency(mode, d) && d.fnType.Some? && d.fnType.value.isThrowing
              && d.doc.value.throwsField.None?
           then 1 else 0
  {
    if RunsConsistency(mode, d) {
      var doc := d.doc.value;
      var ps := if d.params.Some? then MissingParamDiags(d, d.params.value, doc.paramFields) else [];
      assert DeclDiags(mode, d) == ps + ReturnDiags(d, doc) + ThrowsDiags(d, doc);
      assert MissingThrows(d) !in ps;
      assert MissingThrows(d) !in ReturnDiags(d, doc);
    }
  }

  /** `f(x: Int, y: Int) throws -> String` documented with a field for `x`
      only gets three diagnostics: parameter `y`, return, throws. */
  lemma UndescribedSignatureExample()
    ensures
      var doc := DocParts(None, [], [ParamField("x", "first")], None, None);
      var f := Decl(Func, "f(x:y:)", 7, false, Some(doc), Some(["x", "y"]),
                    Some(FunctionType(Some(ResultType(false)), true)));
      DeclDiags(Consistency, f) == [MissingParam(f, "y"), MissingReturn(f), MissingThrows(f)]
  {
  }
}
