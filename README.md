# Documentation comment checker — a Dafny model

This project models the Swift compiler's `DocCommentChecker`
(`lib/IDE/DocCommentChecking.cpp`). The checker is a tree-walker callback. For each
declaration it is handed, it decides one of four things:

- the mode is `Disabled`, so prune;
- the kind is not one it documents, so descend without checking;
- the declaration is exempt from public documentation, so prune;
- otherwise, check it and descend.

A checked declaration with no doc comment, or an empty one, gets one
`public_api_missing_doc_comment` diagnostic. In `Consistency` mode a documented
function or initializer also gets:

- one `public_api_missing_param_description` per parameter that no `- parameter`
  field names;
- a `public_api_missing_return_description` for a non-Void result with no
  `- returns:` field;
- a `public_api_missing_throws_description` for a throwing function with no
  `- throws:` field.

Files:

- `doc_model.dfy` (module `DocModel`) holds the values: the mode, the compiler's
  declaration kinds, doc comment parts, a declaration as the checker sees it, and
  diagnostics.
- `doc_rules.dfy` (module `DocRules`) specifies one visit as functions
  (`Classify`, `Descends`, `DeclDiags`, `ConsistencyDiags`, `MissingParamDiags`,
  `FindParamField`). It also holds the lemmas about those functions.
- `doc_walk.dfy` (module `DocWalk`) specifies a pre-order walk that honours each
  visit's verdict (`WalkDiags`, `Visited`). It holds the whole-tree lemmas and
  small scenarios from the presence test.
- `doc_checker.dfy` (module `DocCommentChecking`) is the imperative checker. A
  `DiagnosticEngine` class is the append-only sink. A `Checker` class has a
  constant `mode` and a reference to the engine. Its methods `CheckConsistency`
  (with the loop over parameters), `WalkToDeclPre` and `Walk` are each proved
  to append exactly what the specification functions say.

Each visit's diagnostics are in the fixed order missing-doc, parameters (in
parameter-list order), return, throws. Parameter diagnostics are tied to
`Undescribed`, an independent filter defined by taking off the first parameter.
`MissingParamDiags`, which the parameter loop is proved against, is defined by
taking off the last parameter, as each loop iteration appends at the end.

The check for an empty comment follows the compiler's `CommentParts::isEmpty`,
which the test at `lib/IDE/DocCommentChecking.cpp:105` calls. That test looks at
the summary and body paragraphs as well as the parameter, returns and throws
fields. So a comment that has only a summary line counts as present. A narrower
reading, where a comment is "empty" when it has none of the three structured
fields, would report every summary-only comment as missing. The model does not
follow that reading.

## Model

| member | source | states |
|---|---|---|
| `DocRules.FindParamField` | lib/IDE/DocCommentChecking.cpp:31-36 | returns the index of the first field whose name equals the parameter's name; returns none exactly when no field has that name |
| `DocRules.UndescribedMembers` | lib/IDE/DocCommentChecking.cpp:29-45 | a name is left undescribed exactly when it is a parameter and no field names it |
| `DocRules.MissingParamDiags` | lib/IDE/DocCommentChecking.cpp:29-45 | one missing-param diagnostic per undescribed parameter, in parameter-list order; each names the declaration and that parameter |
| `DocRules.ConsistencyDiags` | lib/IDE/DocCommentChecking.cpp:25-68 | the consistency check only reports on the function it is given; it never reports a missing doc comment; its output is ordered params, then return, then throws |
| `DocRules.DeclDiags` | lib/IDE/DocCommentChecking.cpp:70-119 | every diagnostic of a visit is about the visited declaration, in emission order; only the check-and-descend outcome emits anything |
| `DocRules.DisabledPrunesSilently` | lib/IDE/DocCommentChecking.cpp:71-73 | in Disabled mode a visit returns false and emits nothing, for any declaration |
| `DocRules.UncheckedKindDescends` | lib/IDE/DocCommentChecking.cpp:75-93 | a kind outside the allow-list emits nothing and returns true |
| `DocRules.ExemptPrunes` | lib/IDE/DocCommentChecking.cpp:95-99 | an exempt declaration of an allowed kind emits nothing and returns false |
| `DocRules.CheckedDeclDescends` | lib/IDE/DocCommentChecking.cpp:104-118 | every allowed, non-exempt declaration returns true whether it is documented or not (when not Disabled) |
| `DocRules.MissingDocIsAlone` | lib/IDE/DocCommentChecking.cpp:104-110 | the missing-doc diagnostic is emitted exactly for allowed, non-exempt declarations with an absent or empty comment; such a declaration gets only that one diagnostic |
| `DocRules.ConsistencyOnlyWhen` | lib/IDE/DocCommentChecking.cpp:112-116 | param, return and throws diagnostics need Consistency mode, a non-empty comment and a function declaration; PresenceOnly mode emits only missing-doc |
| `DocRules.ParamDiagIff` | lib/IDE/DocCommentChecking.cpp:29-45 | a parameter is reported if and only if the consistency check runs, there is a parameter list containing the parameter, and no field names it |
| `DocRules.ReturnDiagIff` | lib/IDE/DocCommentChecking.cpp:47-57 | a return diagnostic if and only if the consistency check runs, there is a function type, its result is non-Void and there is no returns field; it then occurs exactly once |
| `DocRules.ThrowsDiagIff` | lib/IDE/DocCommentChecking.cpp:59-66 | a throws diagnostic if and only if the consistency check runs, there is a function type, it is throwing and there is no throws field; it then occurs exactly once |
| `DocRules.UndescribedSignatureExample` | lib/IDE/DocCommentChecking.cpp:26-67 | `f(x:y:) throws -> String` documented only for `x` gets exactly: param `y`, return, throws, in that order |
| `DocWalk.DisabledWalkSilent` | lib/IDE/DocCommentChecking.cpp:71-73 | in Disabled mode a whole walk visits only the root and emits nothing |
| `DocWalk.ExemptSubtreeSilent` | lib/IDE/DocCommentChecking.cpp:95-99 | an exempt declaration of an allowed kind silences its entire subtree |
| `DocWalk.UncheckedContainerTransparent` | lib/IDE/DocCommentChecking.cpp:90-92 | a node of an unchecked kind (such as an extension) adds nothing; its members are walked as if they stood alone |
| `DocWalk.ContainerCommentIrrelevant` | lib/IDE/DocCommentChecking.cpp:105-118 | a checked container's members are walked the same way whatever the container's own comment is |
| `DocWalk.WalkDiagsAboutVisited` | lib/IDE/DocCommentChecking.cpp:105-108 | every diagnostic of a walk names a declaration the walk visited |
| `DocWalk.PresenceOnlyWalk` | lib/IDE/DocCommentChecking.cpp:112-116 | in PresenceOnly mode a walk emits only missing-doc diagnostics: exactly one per visited allowed, non-exempt, undocumented declaration, in visiting order |
| `DocWalk.PublicClassScenario` | test/Frontend/diag-undoc-public-api-presence.swift:10-12 | a public class and its public class method each get one missing-doc diagnostic |
| `DocWalk.ExtensionScenario` | test/Frontend/diag-undoc-public-api-presence.swift:27-29 | an extension is not reported, but its public method is |
| `DocWalk.UnderscoredOuterScenario` | test/Frontend/diag-undoc-public-api-presence.swift:73-75 | nothing under an underscored public struct is reported; the inner struct is pruned even when its own flag would not exempt it |
| `DocWalk.DeinitScenario` | test/Frontend/diag-undoc-public-api-presence.swift:86 | a deinitializer is never reported: its kind falls to the default branch, which only descends |
| `DocCommentChecking.Checker.constructor` | lib/IDE/DocCommentChecking.cpp:21-23 | the mode and the diagnostic engine are captured once |
| `DocCommentChecking.Checker.CheckConsistency` | lib/IDE/DocCommentChecking.cpp:25-68 | the parameter loop and the return and throws checks append exactly `ConsistencyDiags` to the engine |
| `DocCommentChecking.Checker.WalkToDeclPre` | lib/IDE/DocCommentChecking.cpp:70-119 | returns `Descends(mode, d)` and appends exactly `DeclDiags(mode, d)` |
| `DocCommentChecking.Checker.Walk` | include/swift/IDE/DocCommentChecking.h:22-25 | a pre-order walk calling `WalkToDeclPre` and honouring its verdict appends exactly `WalkDiags(mode, t)` |
| `DocCommentChecking.WalkTwice` | lib/IDE/DocCommentChecking.cpp:21-119 | two fresh checkers over the same tree report identical, identically ordered diagnostics |

## Left out

- The tree-walking engine (`SourceEntityWalker`) is not part of this model.
  `Walk` and `WalkDiags` stand for a plain pre-order walk over a tree of
  declarations. The engine's own choice of which nodes it reports, its
  post-visit callbacks and the source range argument of `walkToDeclPre` are not
  modelled.
- Finding and parsing the doc comment (`getCascadingDocComment`, the markup
  context and the parser) is not modelled. The result is the declaration's
  `doc: Option<DocParts>`. Inheriting a comment from an overridden declaration
  or a protocol requirement is therefore part of that input.
- The exemption query `nameOrContextImpliesOmissionFromDocs` (access level,
  leading underscores, enclosing context, SPI) is the opaque `exempt` flag. The
  SPI case in the presence test (test line 97-98) is not modelled, because the
  query's implementation is not part of this model.
- Type-system queries are not modelled. The declaration carries `fnType` for the
  function type of its interface type. It is `None` when that type is not a
  plain function type, for example when it is generic. How a method's curried
  interface type, which takes `Self` first, presents its result and throwing
  flag is not modelled.
- Rendering diagnostics is not modelled. A diagnostic records its kind, the
  location as a number, the declaration's kind, the declaration's name as a
  string, and the parameter name when there is one. The descriptive kind text
  and full declaration names are not modelled.
- The compiler-instance and frontend-options plumbing is not modelled. The
  constructor takes the mode and the engine directly.
- `EnumCase` is handled like any other allowed kind when it is viewed as a
  value declaration (cpp:101). The compiler's class hierarchy, which decides
  whether that view is valid, is not part of this model.
