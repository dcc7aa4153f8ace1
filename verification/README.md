# Convention analysers of the auto-validation project, in Dafny

This project models the four convention analysers of
`auto-validation/_conventies-validatie/`. They check student web projects
against the course conventions:

- `analyseJs.py`: JavaScript scopes, declared and undeclared variables, strict mode,
  DOM level 0 event handling;
- `analyseHtmlOutline.py`: the HTML5 document outline;
- `analyseHtml.py`: base structure, forbidden tags, images, forms and tag counts;
- `analyseCss.py`: duplicates, wanted and unwanted properties, comments, and style-sheet links.

Each analyser starts from the output of a foreign parser. That parser is not
modelled; its output is a Dafny datatype instead:

- `JsAst.Program` stands for an esprima parse tree. Its nodes keep their fields in
  esprima's attribute order. A node type the analyser does not single out is an
  `Other` node holding sub-nodes and sub-node lists.
- `HtmlTree.Node` stands for a BeautifulSoup document: elements with `name`,
  `attrs`, `sourceline` and `children`, and text nodes.
- `CssSheet.Rule` and `CssSheet.Child` stand for a cssutils style sheet: style rules
  with a selector and their comment and property children in source order.

A scope of the JavaScript analyser is a `ScopeInfo` object that points to its
parent and children. Here the scopes live in an arena: a sequence indexed by
scope number, with the root at 0. The walk that builds it is the class
`JsScopes.ScopeTreeBuilder`, whose methods append to the arena as the Python
appends to the objects. Each method is proved equal to a pure specification
function (`Walked`, `Record`, `Open`), and the lemmas are stated about those
functions.

Every loop of the analysers but one is a method with invariants, proved
against a specification function. The exception is the `for tag in soup` loop
of `_checkOutline`: it is a fold that only builds a result, and it is
modelled as the recursive function `HtmlOutline.CheckChildren` alone. The
properties the analysers promise are proved as lemmas about the
specification functions: order, membership in both directions, counts,
idempotence, and which rules are skipped.

The module `JsWalk` states what the scope walk does without the arena. For a
walk in which every assignment names an identifier, it appends one scope per
block statement and per function, in the order the walk meets them. The
current scope receives the occurrences of the nodes outside nested scopes,
each node's own after those of its sub-nodes.

The following quirks of the code are kept as written:

- Initial values, names and positions carry over from one declarator or
  parameter to the next (`JsScopes.DeclarationOccurrencesFacts`,
  `JsScopes.ParameterOccurrencesCarry`).
- Parameters are not walked for nested occurrences.
- Only parameters of type `Identifier` and `AssignmentExpression` are given
  a name. esprima parses a default-valued parameter `a = 1` as an
  `AssignmentPattern`, so the second branch never applies to parsed code. A
  default-valued parameter carries over the name, position and initial value
  of the parameter before it, or None for the first. An assignment to it in
  the body is then reported as undeclared: `function f(a = 1) { a = 2 }`
  reports `a` (`JsWalk.DefaultParameterUndeclared`).
- cssutils keeps a declaration's `!important` priority apart from its
  value. The forbidden item `:*!important` (analyseCss.py:147) looks for
  `!important` in the value, so for parsed style sheets that half of the
  forbidden check never reports anything (`CssProperties.ImportantNeedsBang`).
- `not scopeInfo == 'function'` compares a record with a string and so is
  always true. The global query therefore collects the `var` declarations
  of a root child's whole subtree, nested functions included.
- A file is a module only if a top-level statement has type
  `ExportDeclaration` or `ExportDefaultDeclaration`. esprima names a named
  export `ExportNamedDeclaration`, so a file with only named exports is
  treated as a script, as the code does.
- An assignment whose target names no identifier makes `ids[0]` raise. The
  nearest enclosing generic node catches the error and skips its remaining
  fields. Lists, blocks, functions and the program let it pass upward, and at
  the top it marks the file as failed. The model carries this as a `raised`
  flag; there is no precondition.

## Model

| member | source | states |
|---|---|---|
| JsAst.FixSourceType | auto-validation/_conventies-validatie/analyseJs.py:45-53 | body and tokens unchanged; the source type is kept when some top-level statement is an export declaration and becomes "script" otherwise |
| JsAst.Fixed | auto-validation/_conventies-validatie/analyseJs.py:45-53 | the same decision as a function: "script" unless an export declaration is present |
| JsChecks.StrictMode | auto-validation/_conventies-validatie/analyseJs.py:59-66 | no result for an empty program; "OK" exactly when the first statement carries the directive "use strict", "NOK" otherwise |
| JsScopes.Root | auto-validation/_conventies-validatie/analyseJs.py:154-159 | the first scope is a well-formed one-scope arena, and it is a module scope exactly when the program's source type is "module" |
| JsScopes.ScopeTreeWellFormed | auto-validation/_conventies-validatie/analyseJs.py:148-159 | the finished tree is well formed (parent and child links agree, child indices are distinct and larger, every occurrence lies in the scope that records it), and its root is a module scope exactly for a module |
| JsWalk.ScopeTreeClean | auto-validation/_conventies-validatie/analyseJs.py:148-184 | when no assignment of the program lacks a name, the walk does not raise; the scopes after the root are exactly one per block statement and function reached, with their kinds, in the order the walk meets them; the root holds the occurrences of the top-level code outside any block or function, in walk order |
| JsWalk.WalkedClean | auto-validation/_conventies-validatie/analyseJs.py:148-184 | a node whose walk meets no nameless assignment does not raise, appends the scopes of its blocks and functions in walk order, leaves the scopes before it with their kinds and parents, and appends its local occurrences to the current scope |
| JsWalk.WalkedBlockClean | auto-validation/_conventies-validatie/analyseJs.py:160-163 | a block statement opens exactly one block scope as a child of the current scope; that scope holds the occurrences of its statements, and the current scope gains nothing |
| JsWalk.WalkedFunctionClean | auto-validation/_conventies-validatie/analyseJs.py:164-174 | a function opens exactly one function or arrow-expression scope as a child of the current scope; its block body opens no second scope; that scope holds the occurrences of the body followed by those of the parameters, and the current scope gains nothing |
| JsWalk.OwnAfterChildren | auto-validation/_conventies-validatie/analyseJs.py:175-183 | for a node that opens no scope, its own occurrences come last in the current scope, after everything its sub-nodes recorded there (post-order) |
| JsWalk.WalkedListClean | auto-validation/_conventies-validatie/analyseJs.py:149-151 | a list walks its items in order: their scopes and occurrences follow one another |
| JsWalk.WalkedChildrenClean | auto-validation/_conventies-validatie/analyseJs.py:175-181 | the fields of a generic node are walked in order, with their scopes and occurrences one after the other |
| JsScopes.BuildScopeTree | auto-validation/_conventies-validatie/analyseJs.py:148-159 | the built arena and the raised flag are those of the specification walk, and the arena is well formed |
| JsScopes.FunctionScopeKind | auto-validation/_conventies-validatie/analyseJs.py:164-170 | an arrow function whose body is not a block opens an "arrowexpression" scope; every other function opens a "function" scope |
| JsScopes.ScopeTreeBuilder.OpenScope | auto-validation/_conventies-validatie/analyseJs.py:160-174 | a new scope is appended at the next index under the given parent, as the specification `Open` says |
| JsScopes.ScopeTreeBuilder.Append | auto-validation/_conventies-validatie/analyseJs.py:90 | appends one occurrence to one scope's variables and changes nothing else |
| JsScopes.AssignedName | auto-validation/_conventies-validatie/analyseJs.py:102-121 | an identifier target gives its own name; no name results exactly when the target is not an identifier and a depth-first search of both sides finds no identifier (the IndexError case) |
| JsScopes.DeclarationOccurrencesFacts | auto-validation/_conventies-validatie/analyseJs.py:77-90 | one "declaration" occurrence per declarator, with its name, kind, scope and position; a literal initialiser sets the initial value, and a declarator without an initialiser keeps the previous declarator's value |
| JsScopes.DeclarationAt | auto-validation/_conventies-validatie/analyseJs.py:79-90 | the i-th occurrence of a declaration in full, in terms of the one before it |
| JsScopes.DeclarationOccurrencesStep | auto-validation/_conventies-validatie/analyseJs.py:79-90 | peeling one declarator off the front gives its occurrence and the rest, with the carried value passed on |
| JsScopes.ScopeTreeBuilder.AppendDeclarations | auto-validation/_conventies-validatie/analyseJs.py:77-90 | the declarator loop appends exactly the specified declaration occurrences to the scope |
| JsScopes.ParameterOccurrencesFacts | auto-validation/_conventies-validatie/analyseJs.py:128-147 | one "parameter" occurrence per parameter in the function's scope; an identifier gives its name and position, and a parameter of type `AssignmentExpression` gives its target's name, position and literal initial value (esprima never produces that type for a parameter, see the quirk above) |
| JsScopes.ParameterAt | auto-validation/_conventies-validatie/analyseJs.py:130-147 | the name, initial value and position of the i-th parameter, in terms of the previous one |
| JsScopes.ParameterOccurrencesCarry | auto-validation/_conventies-validatie/analyseJs.py:130-147 | a parameter that is not an assignment keeps the previous initial value, and one that is neither an identifier nor an assignment keeps the previous name and position |
| JsScopes.ParameterOccurrencesStep | auto-validation/_conventies-validatie/analyseJs.py:130-147 | peeling one parameter off the front gives its occurrence and the rest, with name, value and position carried on |
| JsScopes.ScopeTreeBuilder.AppendParameters | auto-validation/_conventies-validatie/analyseJs.py:128-147 | the parameter loop appends exactly the specified parameter occurrences to the scope |
| JsScopes.OwnOccurrences | auto-validation/_conventies-validatie/analyseJs.py:67-147 | a node fails to give occurrences only when it is an assignment with no identifier to name; all its occurrences belong to the current scope |
| JsScopes.ScopeTreeBuilder.GetVariables | auto-validation/_conventies-validatie/analyseJs.py:67-147 | records the node's own occurrences in the current scope, or raises when the assignment target names nothing |
| JsScopes.WalkedWellFormed | auto-validation/_conventies-validatie/analyseJs.py:148-184 | walking any node from a well-formed arena leaves it well formed; existing scopes other than the current one are untouched, and the current one only gains variables and children at the end |
| JsScopes.WalkedFunctionWellFormed | auto-validation/_conventies-validatie/analyseJs.py:160-174 | opening a function scope, recording its parameters and walking its body keeps the arena well formed and only grows it |
| JsScopes.WalkedChildrenWellFormed | auto-validation/_conventies-validatie/analyseJs.py:175-181 | walking a generic node's fields and catching a raised error keeps the arena well formed |
| JsScopes.ScopeTreeBuilder.GetScopeTree | auto-validation/_conventies-validatie/analyseJs.py:148-184 | the recursive walk leaves the arena and raised flag of the specification walk `Walked` |
| JsScopes.ScopeTreeBuilder.GetScopeTreeOfAttributes | auto-validation/_conventies-validatie/analyseJs.py:175-181 | the field walk of a generic node, with the error caught, leaves the arena of `WalkedChildren` |
| JsScopes.ScopeTreeBuilder.GetScopeTreeList | auto-validation/_conventies-validatie/analyseJs.py:175-181 | walking a list of nodes in order stops at the first raised error, as `WalkedList` says |
| JsResolve.IsVariableDeclaredInScope | auto-validation/_conventies-validatie/analyseJs.py:229-235 | true exactly when the scope holds a declaration or parameter of that name |
| JsResolve.IsVariableDeclaredInScopeTree | auto-validation/_conventies-validatie/analyseJs.py:236-247 | the upward while loop finds a declaration exactly when one lies on the chain from the scope to the top scope |
| JsResolve.DeclaredInChainToRoot | auto-validation/_conventies-validatie/analyseJs.py:236-247 | with the root as top, the chain lookup succeeds exactly when some ancestor-or-self scope declares the name |
| JsResolve.ReportsOccurrence | auto-validation/_conventies-validatie/analyseJs.py:248-253 | an occurrence is reported exactly when it is an assignment or undeclared use, its name is not ignored, and the chain holds no declaration of it |
| JsResolve.FindUndeclaredVariables | auto-validation/_conventies-validatie/analyseJs.py:226-258 | the recursive search returns the reported occurrences of the scope and, when asked, of its subtree in scope pre-order |
| JsResolve.CheckGlobalUndeclaredVariables | auto-validation/_conventies-validatie/analyseJs.py:259-264 | the search from the root with "window" and "document" ignored |
| JsWalk.DefaultParameterScopes | auto-validation/_conventies-validatie/analyseJs.py:128-147 | in a program that is one function with a single parameter that is neither an identifier nor an assignment expression, and whose body assigns a literal to `x`, the function's scope holds the assignment of `x` and then an unnamed parameter |
| JsWalk.DefaultParameterUndeclared | auto-validation/_conventies-validatie/analyseJs.py:128-147 | in that program the assignment to `x` is reported as undeclared: `function f(a = 1) { a = 2 }` reports `a` |
| JsResolve.UndeclaredReportIff | auto-validation/_conventies-validatie/analyseJs.py:229-264 | an occurrence is reported exactly when it is an assignment or undeclared use in some scope, no scope on its path to the root declares its name, and its name is neither window nor document |
| JsResolve.CollectMembership | auto-validation/_conventies-validatie/analyseJs.py:214-225 | the subtree collection holds exactly the kept occurrences of the scopes below the start scope |
| JsResolve.CheckGlobalDeclaredVariables | auto-validation/_conventies-validatie/analyseJs.py:197-213 | the root's declarations followed by the var declarations below each root child that is not a function scope |
| JsResolve.GlobalReportIff | auto-validation/_conventies-validatie/analyseJs.py:197-213 | an occurrence is listed exactly when it is a root declaration, or a var declaration in the subtree of a root child that is not a function scope, nested functions included |
| JsResolve.FindVarDeclaredVariables | auto-validation/_conventies-validatie/analyseJs.py:218-224 | the recursive walk returns the var declarations of the scope's subtree in pre-order |
| JsResolve.CheckAllVarDeclaredVariables | auto-validation/_conventies-validatie/analyseJs.py:214-225 | the var declarations of the whole tree |
| JsResolve.AllVarReportIff | auto-validation/_conventies-validatie/analyseJs.py:214-225 | an occurrence is listed exactly when it is a var declaration in some scope |
| JsChecks.OutputLines | auto-validation/_conventies-validatie/analyseJs.py:185-196 | the report fails exactly when some occurrence has no name, since formatting that name raises |
| JsChecks.VariableInfosToOutputResult | auto-validation/_conventies-validatie/analyseJs.py:185-196 | the dictionary loop groups the occurrences by name, in first-seen order, with their positions and scope levels |
| JsChecks.OutputLinesComplete | auto-validation/_conventies-validatie/analyseJs.py:185-196 | the grouped names are distinct, and the locations over all lines number exactly the occurrences |
| JsChecks.OutputLinesSelect | auto-validation/_conventies-validatie/analyseJs.py:185-196 | each line names an occurring variable and lists the locations of exactly that name's occurrences, in order |
| JsChecks.CheckEventLevelHandling | auto-validation/_conventies-validatie/analyseJs.py:265-280 | no result without tokens; otherwise the token scan yields the event members |
| JsChecks.EventMembersIff | auto-validation/_conventies-validatie/analyseJs.py:265-280 | a token is reported exactly when it is, after the first token, an identifier starting with "on" right after the punctuator "." |
| JsChecks.CheckJsFile | auto-validation/_conventies-validatie/analyseJs.py:281-311 | a file fails exactly when the walk raises or a grouping meets a nameless occurrence; otherwise all six results are those of the specifications |
| JsEvents.EventAttributes | auto-validation/_conventies-validatie/analyseJs.py:345-346 | exactly the element's attributes whose key starts with "on" |
| JsEvents.CheckEventAttributeHandling | auto-validation/_conventies-validatie/analyseJs.py:342-352 | the loop over all elements returns the specified report |
| JsEvents.EventHandlingSound | auto-validation/_conventies-validatie/analyseJs.py:342-352 | each report line comes from an element of the document and lists its on-attributes, which are not empty |
| JsEvents.EventHandlingComplete | auto-validation/_conventies-validatie/analyseJs.py:342-352 | every element with an on-attribute is reported |
| JsEvents.EventHandlingQuiet | auto-validation/_conventies-validatie/analyseJs.py:342-352 | a document without on-attributes gives an empty report |
| HtmlOutline.StripTextLeavesNoText | auto-validation/_conventies-validatie/analyseHtmlOutline.py:61-67 | after text deletion no text node remains at any depth |
| HtmlOutline.StripTextKeepsOrder | auto-validation/_conventies-validatie/analyseHtmlOutline.py:61-67 | the elements keep their pre-order sequence |
| HtmlOutline.StripTextFixesTextFree | auto-validation/_conventies-validatie/analyseHtmlOutline.py:61-67 | deleting text from a text-free tree changes nothing |
| HtmlOutline.DeleteDisplayedText | auto-validation/_conventies-validatie/analyseHtmlOutline.py:61-67 | the recursive deletion returns the element with every text node removed |
| HtmlOutline.PruneLeavesOutline | auto-validation/_conventies-validatie/analyseHtmlOutline.py:68-79 | after unwrapping, every element below the root is a sectioning element or a heading |
| HtmlOutline.PruneKeepsOutlineOrder | auto-validation/_conventies-validatie/analyseHtmlOutline.py:33-34 | the pre-order of kept elements equals the original pre-order filtered to outline names |
| HtmlOutline.PruneIdempotent | auto-validation/_conventies-validatie/analyseHtmlOutline.py:68-79 | pruning a pruned tree changes nothing |
| HtmlOutline.PruneFixesOutline | auto-validation/_conventies-validatie/analyseHtmlOutline.py:68-79 | a tree of outline elements only is left unchanged |
| HtmlOutline.PruneShrinks | auto-validation/_conventies-validatie/analyseHtmlOutline.py:68-79 | pruning never grows the tree |
| HtmlOutline.UnwrapStep | auto-validation/_conventies-validatie/analyseHtmlOutline.py:73-76 | unwrapping one non-outline element in place does not change the final result, shrinks the tree, and keeps the already-checked prefix |
| HtmlOutline.KeepStep | auto-validation/_conventies-validatie/analyseHtmlOutline.py:77-79 | replacing an outline element by its pruned self does not change the final result and touches nothing else |
| HtmlOutline.DeleteNonOutlineTags | auto-validation/_conventies-validatie/analyseHtmlOutline.py:68-79 | the in-place unwrap loop leaves the element with its children pruned as the specification says |
| HtmlOutline.SkeletonProperties | auto-validation/_conventies-validatie/analyseHtmlOutline.py:80-85 | the skeleton is text-free and outline-only, has the outline elements of the document in pre-order, and is its own skeleton |
| HtmlOutline.GetOutlineSkeleton | auto-validation/_conventies-validatie/analyseHtmlOutline.py:80-85 | text deletion then pruning gives the specified skeleton |
| HtmlOutline.HasPreviousSiblingSectioningElement | auto-validation/_conventies-validatie/analyseHtmlOutline.py:87-94 | the sibling loop finds a sectioning element exactly when one precedes the child |
| HtmlOutline.PairwiseSum | auto-validation/_conventies-validatie/analyseHtmlOutline.py:95-96 | each combined error list is as long as its two parts together |
| HtmlOutline.HeadingLevel | auto-validation/_conventies-validatie/analyseHtmlOutline.py:34 | a level exactly for the names h1 to h6, and that level is the name's digit |
| HtmlOutline.ErrorsGrow | auto-validation/_conventies-validatie/analyseHtmlOutline.py:97-126 | the errors after more children extend those after fewer, so nested errors come first and are never lost |
| HtmlOutline.ChildErrorsInOrder | auto-validation/_conventies-validatie/analyseHtmlOutline.py:95-120 | after the first k children, each error list is the concatenation, in document order, of what each child contributes (nested sections one level down, other elements at the same level, level conflicts of headings), whatever the counts were |
| HtmlOutline.NestedErrorsFirst | auto-validation/_conventies-validatie/analyseHtmlOutline.py:95-126 | an element's level conflicts are exactly its children's; its Untitled and Multiple headings lists are its children's followed by at most its own entry; a non-sectioning element adds nothing of its own |
| HtmlOutline.LevelConflictReported | auto-validation/_conventies-validatie/analyseHtmlOutline.py:111-113 | a direct heading whose number differs from the level is in the level-conflict list |
| HtmlOutline.CheckChildrenCounts | auto-validation/_conventies-validatie/analyseHtmlOutline.py:104-120 | the fold counts the direct headings, and counts one when the first heading follows a sectioning sibling |
| HtmlOutline.UntitledIff | auto-validation/_conventies-validatie/analyseHtmlOutline.py:121-123 | a sectioning element adds itself to Untitled exactly when it has no direct heading below level 0, or its first heading follows a sectioning sibling |
| HtmlOutline.MultipleHeadingsIff | auto-validation/_conventies-validatie/analyseHtmlOutline.py:124-125 | a sectioning element adds itself to Multiple headings exactly when it has more than one direct heading |
| HtmlOutline.HeadingsBeforeZero | auto-validation/_conventies-validatie/analyseHtmlOutline.py:105-109 | the heading count is zero exactly when no direct child so far is a heading |
| HtmlOutline.CheckDocumentOutline | auto-validation/_conventies-validatie/analyseHtmlOutline.py:133-137 | the errors of checking the skeleton from level 0 |
| HtmlOutline.SortedLineStrings | auto-validation/_conventies-validatie/analyseHtmlOutline.py:186-190 | the line numbers as strings, a permutation of them, sorted as strings |
| HtmlOutline.FormatErrorOutput | auto-validation/_conventies-validatie/analyseHtmlOutline.py:186-190 | the line is empty exactly when there are no line numbers |
| HtmlOutline.FormatSortsAsStrings | auto-validation/_conventies-validatie/analyseHtmlOutline.py:186-190 | lines 9 and 10 print as "10; 9", because they are sorted as strings |
| HtmlOutline.FormatOutlineErrors | auto-validation/_conventies-validatie/analyseHtmlOutline.py:191-199 | the text is empty exactly when there are no errors |
| HtmlChecks.BaseStructureCases | auto-validation/_conventies-validatie/analyseHtml.py:204-229 | only the first missing element of html, head, body is reported; the result is empty exactly when all three exist, html has lang, head has a charset meta and no charset fails "utf-" |
| HtmlChecks.CheckBaseStructure | auto-validation/_conventies-validatie/analyseHtml.py:204-229 | the checks in order return the specified issues |
| HtmlChecks.CheckCharsets | auto-validation/_conventies-validatie/analyseHtml.py:217-227 | the meta loop reports every charset not starting with "utf-" and records whether any charset meta exists |
| HtmlChecks.CodeOutsideBody | auto-validation/_conventies-validatie/analyseHtml.py:230-237 | exactly the children of html that are neither head nor body |
| HtmlChecks.CheckCodeOutsideBody | auto-validation/_conventies-validatie/analyseHtml.py:230-237 | the loop returns those children |
| HtmlChecks.MainCheckCases | auto-validation/_conventies-validatie/analyseHtml.py:258-273 | missing exactly when no main exists, fine exactly when one exists, and otherwise one line with every main's sourceline |
| HtmlChecks.CheckMain | auto-validation/_conventies-validatie/analyseHtml.py:258-273 | the check returns the specified report |
| HtmlChecks.NestedArticlesLines | auto-validation/_conventies-validatie/analyseHtml.py:274-286 | one line listing the article elements with an article ancestor, or nothing when there are none |
| HtmlChecks.CheckNestedArticles | auto-validation/_conventies-validatie/analyseHtml.py:274-286 | the loop returns the specified lines |
| HtmlChecks.ForbiddenTagsReported | auto-validation/_conventies-validatie/analyseHtml.py:287-318 | each line names a listed tag, and every listed element's sourceline appears under its name |
| HtmlChecks.CheckForbiddenTags | auto-validation/_conventies-validatie/analyseHtml.py:287-318 | the forbidden and semi-forbidden loops group sourcelines by tag name |
| HtmlChecks.GroupedLinesComplete | auto-validation/_conventies-validatie/analyseHtml.py:290-298 | names are distinct, each line lists exactly its name's sourcelines in order, every tag is covered, and the lines number as many as the tags |
| HtmlChecks.GroupSourcelines | auto-validation/_conventies-validatie/analyseHtml.py:290-300 | the dictionary loop groups sourcelines by name in first-seen order |
| Grouping.GroupBy | auto-validation/_conventies-validatie/analyseHtml.py:293-298 | keys in first-seen order, and each key maps to exactly its items in order |
| HtmlChecks.ImageScalingLines | auto-validation/_conventies-validatie/analyseHtml.py:333-350 | every sourceline appears once; width matches come first; every img with width or height is covered; and conversely, every reported line is the sourceline of an img with width or height; nothing is reported without one |
| HtmlChecks.ImageLinesSound | auto-validation/_conventies-validatie/analyseHtml.py:333-350 | every reported line is the sourceline of an img tag found by the width or the height search, which has that attribute |
| HtmlChecks.CheckImageScaling | auto-validation/_conventies-validatie/analyseHtml.py:333-350 | the check returns the specified lines |
| HtmlChecks.LoopTags | auto-validation/_conventies-validatie/analyseHtml.py:336-346 | the loop adds each new sourceline once under its tag name |
| HtmlChecks.InputTypeKey | auto-validation/_conventies-validatie/analyseHtml.py:363-376 | an input without type counts as input_text, one with type t as input_t, and select and textarea by name |
| HtmlChecks.CountLinesSum | auto-validation/_conventies-validatie/analyseHtml.py:359-382 | the count keys are distinct, and the counts sum to the number of form controls |
| HtmlChecks.CheckFormInputTypes | auto-validation/_conventies-validatie/analyseHtml.py:359-382 | the loop returns the specified counts |
| HtmlChecks.ValidationCount | auto-validation/_conventies-validatie/analyseHtml.py:383-399 | the count of a validation attribute is the number of controls that carry it |
| HtmlChecks.CheckFormInputValidations | auto-validation/_conventies-validatie/analyseHtml.py:383-399 | the nested loops return the specified counts |
| HtmlChecks.FormInputNameAttr | auto-validation/_conventies-validatie/analyseHtml.py:400-410 | exactly the form controls with a missing or empty name, submit and reset inputs excepted |
| HtmlChecks.CheckFormInputNameAttr | auto-validation/_conventies-validatie/analyseHtml.py:400-410 | the loop returns those controls |
| HtmlChecks.CheckHtmlFile | auto-validation/_conventies-validatie/analyseHtml.py:434-455 | the base structure is always reported, and the other checks run exactly when it reports nothing |
| HtmlSummary.FileTagInfosAscending | auto-validation/_conventies-validatie/analyseHtml.py:72-79 | a file's tag counts are in strictly ascending name order |
| HtmlSummary.FileTagInfosCounts | auto-validation/_conventies-validatie/analyseHtml.py:72-79 | every count is positive and carries the file name, and every element's name has a count |
| HtmlSummary.FileTagInfosSum | auto-validation/_conventies-validatie/analyseHtml.py:72-79 | the counts of a file sum to its number of elements |
| HtmlSummary.CountNames | auto-validation/_conventies-validatie/analyseHtml.py:72-73 | the Counter pairs each sorted name with its number of elements |
| HtmlSummary.FlatCache.AppendCounts | auto-validation/_conventies-validatie/analyseHtml.py:71-79 | a file's counts are appended to the global list |
| HtmlSummary.FlatCache.Flatten | auto-validation/_conventies-validatie/analyseHtml.py:60-80 | a cached file returns its records unchanged, and a new file is counted and appended; either way the result is the file's counts |
| HtmlSummary.SumByName | auto-validation/_conventies-validatie/analyseHtml.py:86-94 | the dictionary loop totals the counts by name in ascending name order |
| HtmlSummary.TotalsAscending | auto-validation/_conventies-validatie/analyseHtml.py:94 | the totals are sorted by name |
| HtmlSummary.TotalsOfFile | auto-validation/_conventies-validatie/analyseHtml.py:86-94 | for one file the totals are its counts unchanged |
| HtmlSummary.PopTag | auto-validation/_conventies-validatie/analyseHtml.py:104-109 | the search finds the first entry of the name and removes just that entry |
| HtmlSummary.WalkRemaining | auto-validation/_conventies-validatie/analyseHtml.py:97-109 | after the listed names, exactly the entries not mentioned at that level remain, still sorted |
| HtmlSummary.WalkReports | auto-validation/_conventies-validatie/analyseHtml.py:97-109 | every remaining entry whose name is mentioned is printed |
| HtmlSummary.SummaryComplete | auto-validation/_conventies-validatie/analyseHtml.py:95-121 | with other tags included, every total appears in the summary |
| HtmlSummary.SummarySound | auto-validation/_conventies-validatie/analyseHtml.py:95-121 | every line of the summary is one of the totals |
| HtmlSummary.TagsSummaryOfFile | auto-validation/_conventies-validatie/analyseHtml.py:86-121 | the summary of a file, for a tag list or all tags, equals the specification |
| HtmlSummary.WalkTags | auto-validation/_conventies-validatie/analyseHtml.py:97-109 | the loop over the tag list gives the specified lines and remaining entries |
| CssDuplicates.UniqueIdentifierForms | auto-validation/_conventies-validatie/analyseCss.py:54-62 | the key is sel{prop:val}, prop:val or prop for those field lists, and the selector alone when the key would otherwise be empty |
| CssDuplicates.PropertyLevelKeys | auto-validation/_conventies-validatie/analyseCss.py:54-62 | property-level keys are equal exactly when property and value are |
| CssDuplicates.SelectorLevelKeys | auto-validation/_conventies-validatie/analyseCss.py:54-62 | selector-level keys are equal exactly when selector, property and value are |
| CssDuplicates.GroupProperties | auto-validation/_conventies-validatie/analyseCss.py:68-76 | the dictionary loop groups records by key in first-seen order |
| CssDuplicates.ItemsFaithful | auto-validation/_conventies-validatie/analyseCss.py:68-76 | each item's count is its number of records, its records are exactly those with its key, and keys are distinct |
| CssDuplicates.ItemCountsSum | auto-validation/_conventies-validatie/analyseCss.py:68-76 | the counts sum to the number of flattened properties |
| CssDuplicates.DuplicatesByAmount | auto-validation/_conventies-validatie/analyseCss.py:78 | sorted by amount, the counts do not increase |
| CssDuplicates.DuplicatesByKey | auto-validation/_conventies-validatie/analyseCss.py:78 | sorted by key, keys strictly ascend |
| CssDuplicates.DuplicatesComplete | auto-validation/_conventies-validatie/analyseCss.py:79-90 | every key with at least the minimum count is emitted |
| CssDuplicates.DuplicateLineFacts | auto-validation/_conventies-validatie/analyseCss.py:79-90 | each emitted line reaches the minimum, counts its key's records, and its per-file counts sum to its count |
| CssDuplicates.FileCountsSum | auto-validation/_conventies-validatie/analyseCss.py:82-86 | per-file counts sum to the number of records |
| CssDuplicates.CountFiles | auto-validation/_conventies-validatie/analyseCss.py:82-86 | the Counter over file names gives the specified per-file counts |
| CssDuplicates.ReportLines | auto-validation/_conventies-validatie/analyseCss.py:79-90 | the output loop prints the lines of the keys that reach the minimum, in sorted order |
| CssDuplicates.CheckCssDuplicates | auto-validation/_conventies-validatie/analyseCss.py:63-92 | the whole check prints the specified duplicate lines |
| CssProperties.WildLiteral | auto-validation/_conventies-validatie/analyseCss.py:93-105 | a pattern without `*` matches exactly the strings it starts |
| CssProperties.WildLiteralStar | auto-validation/_conventies-validatie/analyseCss.py:93-105 | `p*` matches exactly the strings starting with p |
| CssProperties.WildStarLiteral | auto-validation/_conventies-validatie/analyseCss.py:93-105 | `*p` matches exactly when p follows a run without line breaks at the start |
| CssProperties.NameItemWanted | auto-validation/_conventies-validatie/analyseCss.py:93-115 | a plain name item wants the properties whose name starts with it |
| CssProperties.PairItemWanted | auto-validation/_conventies-validatie/analyseCss.py:93-115 | a name:value item wants the properties whose name and value start with its two parts |
| CssProperties.ImportantNeedsBang | auto-validation/_conventies-validatie/analyseCss.py:146-149 | a value without `!` is never caught by the `*!important` condition |
| CssProperties.ImportantItemWanted | auto-validation/_conventies-validatie/analyseCss.py:93-105 | the `*!important` value pattern wants values containing "!important" on their first line |
| CssProperties.ParseWanted | auto-validation/_conventies-validatie/analyseCss.py:108-115 | a parsed item has a non-empty name pattern, and a value pattern when given is non-empty |
| CssProperties.ParseNoColon | auto-validation/_conventies-validatie/analyseCss.py:108-115 | an item without colon is a name alone, and an empty item is dropped |
| CssProperties.ParseOneColon | auto-validation/_conventies-validatie/analyseCss.py:108-115 | a:b gives a or `*` and b or `*` |
| CssProperties.ParseColons | auto-validation/_conventies-validatie/analyseCss.py:108-115 | with two or more colons only the text before the first is kept, without value |
| CssProperties.FindWanted | auto-validation/_conventies-validatie/analyseCss.py:123-131 | the loop finds the rule's properties meeting some wanted condition |
| CssProperties.FoundOnce | auto-validation/_conventies-validatie/analyseCss.py:123-131 | each property enters the found list at most as often as it occurs in the rule, and only when wanted |
| CssProperties.HasAllWanted | auto-validation/_conventies-validatie/analyseCss.py:132-137 | true exactly when every condition is met by some found property |
| CssProperties.MatchedFound | auto-validation/_conventies-validatie/analyseCss.py:132-137 | a condition is met by the found list exactly when it is met by the rule |
| CssProperties.RequireAllReport | auto-validation/_conventies-validatie/analyseCss.py:132-140 | in require-all mode a rule is reported exactly when every condition is met |
| CssProperties.AnyModeReport | auto-validation/_conventies-validatie/analyseCss.py:132-140 | otherwise a rule is reported exactly when some property is wanted |
| CssProperties.PropertiesReportLength | auto-validation/_conventies-validatie/analyseCss.py:118-141 | at most one line per style rule |
| CssProperties.CheckProperties | auto-validation/_conventies-validatie/analyseCss.py:106-141 | the check reports the specified lines for the style rules |
| CssProperties.ForbiddenWanted | auto-validation/_conventies-validatie/analyseCss.py:146-149 | the forbidden items look for float and for `!important` values |
| CssProperties.HiddenTitleWanted | auto-validation/_conventies-validatie/analyseCss.py:166-169 | the hidden-title items parse into their five conditions |
| CssProperties.CheckHiddenTitle | auto-validation/_conventies-validatie/analyseCss.py:166-169 | reports the rules that hold all five conditions |
| CssProperties.CheckSemiForbiddenProperties | auto-validation/_conventies-validatie/analyseCss.py:142-145 | reports rules with an overflow property |
| CssProperties.CheckForbiddenProperties | auto-validation/_conventies-validatie/analyseCss.py:146-149 | reports rules with float or an `!important` value |
| CssProperties.Indent | auto-validation/_conventies-validatie/analyseCss.py:150-165 | three characters are added after every `{` and `,` |
| CssProperties.IndentAll | auto-validation/_conventies-validatie/analyseCss.py:150-165 | the output loop indents every line |
| CssProperties.CheckGrid | auto-validation/_conventies-validatie/analyseCss.py:150-157 | the grid lines, indented |
| CssProperties.CheckFlexbox | auto-validation/_conventies-validatie/analyseCss.py:158-165 | the flexbox lines, indented |
| CssComments.ChildItems | auto-validation/_conventies-validatie/analyseCss.py:191-223 | the flag-driven child loop gives the specified items |
| CssComments.KeptChild | auto-validation/_conventies-validatie/analyseCss.py:191-223 | a child is shown exactly when it is a comment, a position or box-sizing property, or next to a comment, and its text is then in the items |
| CssComments.GapRun | auto-validation/_conventies-validatie/analyseCss.py:202-219 | a maximal run of unshown properties adds exactly one "..." |
| CssComments.NoCommentRuleDropped | auto-validation/_conventies-validatie/analyseCss.py:220-223 | a rule without comments or required properties shows a lone "..." and is dropped |
| CssComments.CommentedRuleKept | auto-validation/_conventies-validatie/analyseCss.py:220-223 | a rule with a comment or required property is reported |
| CssComments.ReportedRulesShowSomething | auto-validation/_conventies-validatie/analyseCss.py:220-223 | no reported rule shows nothing or a lone "..." |
| CssComments.TopCommentsKept | auto-validation/_conventies-validatie/analyseCss.py:176-178 | every top-level comment is reported, in order |
| CssComments.CheckComments | auto-validation/_conventies-validatie/analyseCss.py:170-230 | the rule loop and the output loop give the text of the specified entries |
| CssLinks.WordsOfWord | auto-validation/_conventies-validatie/analyseCss.py:288-290 | a rel value made of one word, with blanks before and after it or not, is that single word; blanks are the characters Python's `\s` matches, the no-break space among them |
| CssLinks.NoBreakSpaceSeparates | auto-validation/_conventies-validatie/analyseCss.py:288-290 | `stylesheet` followed by a no-break space (`&nbsp;`) is the single word `stylesheet` |
| CssLinks.NonStyleSheetSkipped | auto-validation/_conventies-validatie/analyseCss.py:288-290 | a link whose rel lacks stylesheet is never listed |
| CssLinks.LinkHrefs | auto-validation/_conventies-validatie/analyseCss.py:287-297 | one link adds its href exactly when it is a listed style-sheet link |
| CssLinks.ListLinks | auto-validation/_conventies-validatie/analyseCss.py:286-298 | the loop lists the hrefs of the listed links in order |
| CssLinks.CheckExternStylesInHtml | auto-validation/_conventies-validatie/analyseCss.py:283-299 | the hrefs of the style-sheet links in the head, of the requested kinds |
| CssLinks.ExternStylesSound | auto-validation/_conventies-validatie/analyseCss.py:291-297 | each listed href is local, or external (starting with http, ignoring case) and not a font |
| CssLinks.ExternStylesComplete | auto-validation/_conventies-validatie/analyseCss.py:286-297 | every style-sheet link of the head of a requested kind is listed |
| CssLinks.LocalExternalApart | auto-validation/_conventies-validatie/analyseCss.py:291-297 | local-only lists no external href, and external-only lists only non-font external hrefs |

## Left out

- Parsing is not modelled: esprima, BeautifulSoup and cssutils are foreign libraries. Their output is given as the datatypes above.
- Parse caches, file discovery, output files, `main` and `checkProject` are left out. They are filesystem I/O and global state.
- The per-project loops `_checkJsFiles`, `_checkCssFiles` and both `_checkHtmlFiles` are modelled only for one file: `JsChecks.CheckJsFile` and `HtmlChecks.CheckHtmlFile`. The exception text and the collection of valid files are left out.
- The text of report lines is left out:
  - `f'{x:<10}{n:>5}'` padding;
  - `'; '.join` prefixes;
  - `str(tag)`;
  - the `re.sub('\s+',' ')` clean-up of comment output.
  Results stay structured where the text adds nothing to check.
- `_checkSourceType` is modelled only inside `JsChecks.CheckJsFile`, as the one-element list of the source type.
- `_checkInternJavaScript` (analyseJs.py:328-341) is not modelled. It is a regular-expression search over script text.
- `_checkPageTitleAndH1Info`, `_checkImageAltInfo`, `_checkUpperCaseTags` and `_checkSemanticTags*` (analyseHtml.py) are not modelled. They are informational string listings outside the modelled core.
- `_flattenHtmlFiles` and `_getTagsSummaryOfFiles` (analyseHtml.py:81-85, 122-203) are not modelled. They are the project-wide summary tables built over the per-file counts.
- `_flattenCssFile` and the concatenation over files are not modelled. The duplicate check starts from the flattened `PropertyInfo` list.
- `_checkInternStylesInHtml` and `_checkInlineStylesInHtml` (analyseCss.py:300-313) are not modelled. They are plain listings.
- Regular expressions are modelled only as patterns of literal characters and `*`, which are all the patterns the property checks use.
- cssutils' separation of a `!important` priority from the value is not modelled. A value is taken as given; a value cssutils produces holds no `!important`.
- Attributes are a sequence. BeautifulSoup's `html.parser` keeps only the last value of a repeated attribute, so its output has distinct keys. The first-one-counts lookup of the model decides only inputs the parser cannot produce.
- The DOM is modelled on values: in-place mutation and sibling links of bs4 are left out. `removeSectioningRootTags` is always false in the source and is not modelled.
- Namedtuple equality in the chain walk is replaced by arena indices. They agree because the top scope is the one level-0 scope.
- analyse.py, conventions-validator.py, syntax-validator.py and the student script are not part of this model.
- CssComments.CheckComments: the collapsing of white space and the empty-selector case of the output text are not modelled.
- CssComments.CheckComments: a modelled style rule has only comments and properties as children. In the source, `style.children()` can also yield a `CSSUnknownRule`. Such a child matches neither branch of `_checkComments` (analyseCss.py:191-219), adds no output and resets the three flags. The model has no such children.
