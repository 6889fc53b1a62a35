# Complexity and lint core of a C/C++ editor extension, in Dafny

This project models the parts of a C/C++ editor extension that work without I/O, and proves what each part computes.

**Big-O estimate from a C++ syntax tree** (`tc/astComplexity.ts`). The parser's root node is taken as a value of the `SyntaxTree.Node` datatype, which has:
- a node kind;
- the ordered list of children, each marked named or anonymous;
- a map from field names to child positions;
- the node's text.

The estimate runs from that node in these steps:
- The pre-order walk collects every `function_definition`, nested ones included.
- Each definition's loop nest becomes an `{exp, log}` term. A loop adds `{1, 0}`, or `{0, 1}` when `isLogLoop` finds a halving or doubling pattern, to the term of its body. Any other node takes the lexicographic maximum of its named children.
- The walk of `analyzeRecursion` counts halving and subtracting arguments of direct self-calls.
- The overall loop term is the maximum over all definitions. It is printed as `O(...)`.
- The largest divide and subtract counts of the recursive functions give a recursion label.
- The two labels are merged.

Every regular expression of the analysis is written out as a string predicate. A lemma states which texts each predicate accepts.

**Line checks of the code-emotion feature** (`src/codeEmotion.ts`). A document is its language id and its sequence of lines. Two scans, the missing-semicolon scan and the trailing-whitespace scan, carry an "inside block comment" flag from line to line and return the indices of the lines they decorate. A non-C/C++ document gets no decorations. `stripComments` removes block comments, then line comments.

**Refactoring suggestions** (`src/webviewContent.ts`):
- Seven rules are tried on each function body. long-function, duplicate-code and deep-nesting are computed. The other four are regular-expression tests and enter as an oracle on (rule key, body).
- Each function's matching descriptions, with the first link of each rule, are recorded under the function's name. A later function with the same name overwrites the entry.
- The issue counts of all functions are summed.
- Each recorded name becomes a card, shown in insertion order. When no function has issues, the page is a single "No issues detected" card.

**Lizard heat map** (`out/extension.js`):
- Each cyclomatic complexity score is clamped into 1..25 and looked up in a 25-colour table.
- The captured output of `lizard -C 0` is cut into lines. Lines holding `@` are matched against the row pattern. Rows are kept once per `name@startLine`.
- Each kept row becomes one record and one decoration, and then one row of the table sent to the panel.

The imperative parts of the source are methods with loop invariants. Each is proved equal to a specification function, and the specification functions carry the lemmas below. These parts are:
- the recursive visits;
- the running maxima;
- the `isLogLoop` identifier collection and body scan;
- the `analyzeRecursion` walk;
- the two line scans;
- the `forEach` and `for ... of` loops of the webview;
- the lizard parse loop.

The modules are `Options`, `Text` (JavaScript string built-ins), `SyntaxTree`, `ComplexityLabels`, `LoopAnalysis`, `RecursionAnalysis`, `AstComplexity`, `CodeEmotion`, `Refactor` and `Lizard`.

The function name is the text of the declarator's `child(0)` (tc/astComplexity.ts:13-14), which may be an anonymous child.

## Model

| member | source | states |
|---|---|---|
| Text.IndexOf | tc/astComplexity.ts:302 | `indexOf` finds the first occurrence of the pattern. It is absent exactly when the pattern does not occur. |
| Text.Trim | src/codeEmotion.ts:37 | `trim()` leaves no white space at either end. It is empty exactly when the text is all white space, and it keeps only characters of the input. |
| Text.TrimSlice | src/codeEmotion.ts:37 | `trim()` is the slice of the input between a run of leading and a run of trailing white space. |
| Text.RemoveSpacesSpec | tc/astComplexity.ts:53 | `replace(/\s+/g, "")` leaves no white space and keeps every other character as often as it occurred. |
| Text.RemoveSpacesAppend | tc/astComplexity.ts:53 | The removal distributes over concatenation and drops one character exactly when it is white space, so the kept characters stay in their order. |
| Text.SplitCount | src/webviewContent.ts:736 | `split` with a one-character separator gives one piece more than the separator occurs. |
| Text.SplitParts | src/webviewContent.ts:761 | No piece of a `split` holds the separator. |
| Text.JoinSplit | out/extension.js:171 | Joining the pieces of `split(sep)` with `sep` gives back the text. |
| Text.NatToString | out/extension.js:186 | `${n}` is a non-empty string of decimal digits without a leading zero, unless n is 0. |
| Text.DecimalRoundTrip | out/extension.js:181-185 | `parseInt(·, 10)` reads back the decimal text of every natural number. |
| Text.NatToStringInjective | out/extension.js:186 | Different numbers have different decimal texts. |
| Text.OpSpacesDigitFrom | tc/astComplexity.ts:92 | Every match of `/op\s*d/` (or `/op\s*d\b/`), with any amount of white space, is recognised. |
| Text.OpSpacesDigitMatch | tc/astComplexity.ts:206 | Every text recognised as `/op\s*d\b/` holds a real match. |
| SyntaxTree.NamedPositions | tc/astComplexity.ts:39-42 | `namedChild(i)` goes through exactly the named children, in increasing position. |
| SyntaxTree.NamedIndex | tc/astComplexity.ts:40 | `namedChild(i)`, when present, is a named child of the node. |
| SyntaxTree.PreOrderAll | tc/astComplexity.ts:35-44 | A property holds on every node the visit reaches exactly when it holds at the root and throughout each named subtree. |
| ComplexityLabels.Compare | tc/astComplexity.ts:138-146 | `compareComplexity` returns 0 exactly on equal terms and 1 exactly when `exp` is larger, or `exp` is equal and `log` is larger; otherwise it returns -1. |
| ComplexityLabels.CompareIsTotalOrder | tc/astComplexity.ts:138-146 | The comparison is antisymmetric and transitive, strictly and non-strictly, with `{0, 0}` at the bottom. |
| ComplexityLabels.Larger | tc/astComplexity.ts:23-25 | The running-maximum step returns one of its two arguments, and that argument is at least both. |
| ComplexityLabels.ToLabel | tc/astComplexity.ts:148-161 | `complexityToString` always returns an `O(...)` label. |
| ComplexityLabels.ProductShape | tc/astComplexity.ts:153-160 | A label holds the polynomial factor, then the log factor, each only when present, joined by one space. |
| ComplexityLabels.LabelRoundTrip | tc/astComplexity.ts:148-161 | Every loop label can be parsed back into the term it was printed from. |
| ComplexityLabels.ToLabelInjective | tc/astComplexity.ts:148-161 | Different loop terms get different labels. |
| ComplexityLabels.LoopLabelParen | tc/astComplexity.ts:158 | A loop label holds a `)` inside its wrapper only when its log power is at least two. |
| ComplexityLabels.RecursionLabel | tc/astComplexity.ts:287-292 | The recursion label is one of six `O(...)` labels without an inner `)`. It is `O(1)` exactly when both maxima are 0. |
| ComplexityLabels.DivideDominates | tc/astComplexity.ts:287-288 | A positive divide count decides the label whatever the subtract count: `O(n log n)` from 2 on, `O(log n)` at 1. |
| ComplexityLabels.CombineUnit | tc/astComplexity.ts:295-301 | `O(1)` is a unit of the merge on either side. A label merged with itself is unchanged. `O(n)` with `O(log n)` gives `O(n log n)` in either order. This holds for both the source's merge and the corrected one. |
| ComplexityLabels.CombineMultiplies | tc/astComplexity.ts:302 | Two labels that no earlier rule settles are multiplied factor by factor: `O(x)` and `O(y)` give `O(x * y)`. |
| ComplexityLabels.CombineWrapped | tc/astComplexity.ts:295-302 | The corrected merge of two `O(...)` labels gives an `O(...)` label. |
| ComplexityLabels.CombineAsWrittenWrapped | tc/astComplexity.ts:295-302 | The source's merge of two `O(...)` labels also gives an `O(...)` label, even when the inside is mangled. |
| ComplexityLabels.StripAsWrittenWhenNoParen | tc/astComplexity.ts:302 | The source's two `replace` calls unwrap `O(x)` correctly when `x` holds no `)`. |
| ComplexityLabels.CombineAgrees | tc/astComplexity.ts:295-302 | When neither label holds an inner `)`, the source's merge and the corrected merge give the same result. |
| ComplexityLabels.StripSquaredLog | tc/astComplexity.ts:302 | The source's stripping turns `O((log n)^2)` into `(log n^2)`. |
| ComplexityLabels.CombineAsWrittenMangles | tc/astComplexity.ts:302 | A squared-log loop term with a linear recursion merges to `O((log n^2) * n)` as written. The corrected merge gives `O((log n)^2 * n)`. |
| LoopAnalysis.AddIdsSpec | tc/astComplexity.ts:76-89 | The identifier set, kept in insertion order, stays duplicate-free and keeps earlier texts in place. It gains exactly the texts of the identifier nodes met. |
| LoopAnalysis.FirstIdentifier | tc/astComplexity.ts:89-97 | `idList[0]` is the text of the first identifier the visit meets. |
| LoopAnalysis.CollectIds | tc/astComplexity.ts:77-88 | The recursive `collectIds` adds the identifiers of the pre-order visit of the condition. |
| LoopAnalysis.SelfUpdateOf | tc/astComplexity.ts:57-60 | Every update text of the shape `v=v op`, with `v` an identifier (and a digit after `<<` or `>>`), matches the back-reference pattern. |
| LoopAnalysis.SelfUpdateShape | tc/astComplexity.ts:57-60 | Every text that matches the back-reference pattern has that shape. |
| LoopAnalysis.AssignsAfterOf | tc/astComplexity.ts:107 | Every match of `=[^=]*op` is found. |
| LoopAnalysis.ScanInAny | tc/astComplexity.ts:111-129 | The body walk sets the flag for the first `i` children exactly when it sets it in one of their named subtrees. An additive update stops only its own subtree, and the walk goes on with the siblings. |
| LoopAnalysis.ScanLogSound | tc/astComplexity.ts:100-110 | When the walk sets `foundLog`, some node of the subtree is a logarithmic assignment to the condition variable. |
| LoopAnalysis.ScanLogComplete | tc/astComplexity.ts:100-131 | When no node anywhere in the subtree is an additive update of the variable, every logarithmic assignment in the subtree sets the flag. |
| LoopAnalysis.FoundAlongComplete | tc/astComplexity.ts:100-127 | A logarithmic assignment reached through named children whose verdict is to descend sets the flag, whatever their siblings hold. A stopping sibling cuts off only its own subtree. |
| LoopAnalysis.FoundAlongSound | tc/astComplexity.ts:100-127 | A set flag comes from such a path, so with FoundAlongComplete the flag is set exactly when a path exists. |
| LoopAnalysis.ScanNode | tc/astComplexity.ts:100-130 | The recursive `scanNode` leaves `foundLog` set exactly when it was set already or the subtree sets it. |
| LoopAnalysis.LogUpdateSettles | tc/astComplexity.ts:50-63 | A `for` loop whose update clause is logarithmic is a log loop, whatever its condition and body. |
| LoopAnalysis.NoConditionNoLog | tc/astComplexity.ts:72-74 | Without a condition, only a logarithmic `for` update makes a loop logarithmic. |
| LoopAnalysis.NoIdentifiers | tc/astComplexity.ts:135 | Without identifiers in the condition, only a logarithmic `for` update makes a loop logarithmic. |
| LoopAnalysis.TwoIdentifiers | tc/astComplexity.ts:90-95 | With two distinct condition identifiers, the loop is logarithmic exactly when the update is, or the body text holds `/\s*2` or `>>\s*1`. |
| LoopAnalysis.OneIdentifier | tc/astComplexity.ts:96-133 | With a single condition identifier `v`, the loop is logarithmic exactly when the update is, or the body walk finds `v` scaled. |
| LoopAnalysis.IsLogLoop | tc/astComplexity.ts:48-136 | The imperative `isLogLoop` returns the verdict the lemmas above characterise. |
| LoopAnalysis.MaxInBounds | tc/astComplexity.ts:178-188 | The running maximum over the named children is at least every child's term, and equals one of them unless it is `{0, 0}`. |
| LoopAnalysis.MaxInConstant | tc/astComplexity.ts:178-188 | The maximum is `{0, 0}` exactly when every named child's term is. |
| LoopAnalysis.LoopTermOfLoop | tc/astComplexity.ts:167-176 | A loop's term is its own term plus its body's, added componentwise. Loops in the init, condition or update are ignored. |
| LoopAnalysis.LoopTermPositive | tc/astComplexity.ts:167-176 | A loop counts at least one factor of `n` or `log n`. |
| LoopAnalysis.LoopTermConstant | tc/astComplexity.ts:163-190 | A subtree's term is `{0, 0}` exactly when the visit reaches no loop in it. |
| LoopAnalysis.GetLoopComplexity | tc/astComplexity.ts:163-190 | The recursive `getLoopComplexity` computes the loop term of the node. |
| LoopAnalysis.LoopNodeComplexity | tc/astComplexity.ts:167-176 | The loop branch returns the loop's term. |
| LoopAnalysis.CurrentComplexity | tc/astComplexity.ts:168-169 | `current` is the loop's own term. |
| LoopAnalysis.MaxOverChildren | tc/astComplexity.ts:177-189 | The `for` loop with its running `maxComp` returns the maximum over all named children. |
| RecursionAnalysis.MinusNumberOf | tc/astComplexity.ts:208 | Every match of `/\- *\d+\b/` is found. |
| RecursionAnalysis.EndsWithSignedNumberOf | tc/astComplexity.ts:250 | Every text ending in a sign followed by digits matches `/[\+\-]\d+$/`. |
| RecursionAnalysis.TrackAssignment | tc/astComplexity.ts:201-215 | The assignment tracking leaves the flag and the counters alone. It only adds to the two name sets, and at most the target's text. |
| RecursionAnalysis.VisitArgsBound | tc/astComplexity.ts:223-260 | Each argument adds one to at most one counter. The argument loop leaves the flag and the name sets alone. |
| RecursionAnalysis.RecursiveIffSelfCall | tc/astComplexity.ts:217-220 | `isRecursive` ends up set exactly when it was set already or the walk reaches a `call_expression` whose first child is the identifier `funcName`. |
| RecursionAnalysis.VisitAllGrows | tc/astComplexity.ts:197-215 | The walk only adds. The flag stays set, the counters never drop and the name sets only grow, so a later assignment cannot reclassify an earlier call. |
| RecursionAnalysis.CountsBound | tc/astComplexity.ts:223-260 | The two counters grow by at most one per argument of a self-call. |
| RecursionAnalysis.NoSelfCallNoCounts | tc/astComplexity.ts:193-220 | Without a self-call the flag and both counters keep their values. |
| RecursionAnalysis.CountArguments | tc/astComplexity.ts:223-260 | The `for` loop over a self-call's named arguments applies the argument rules in the source's order. |
| RecursionAnalysis.WalkNode | tc/astComplexity.ts:200-268 | The recursive `walk` visits the nodes in pre-order: it tracks assignments and self-calls at a node before it visits the named children. |
| RecursionAnalysis.AnalyzeRecursion | tc/astComplexity.ts:192-271 | `isRecursive` holds exactly when the function's subtree holds a self-call. `divideCount + subtractCount` is at most the number of self-call arguments. |
| AstComplexity.Defs | tc/astComplexity.ts:36-38 | The kept nodes are all `function_definition`s, and every definition is kept. |
| AstComplexity.CollectDefinitions | tc/astComplexity.ts:35-43 | The recursive `visit` pushes the definitions of the subtree, in pre-order, after what was there. |
| AstComplexity.GetFunctionDefinitions | tc/astComplexity.ts:33-46 | The result is exactly the definitions reached in pre-order, nested ones included, and nothing else. |
| AstComplexity.DefsFrom | tc/astComplexity.ts:33-46 | Every definition returned is a node of the tree. |
| AstComplexity.NoDefinitionNode | tc/astComplexity.ts:33-46 | A tree without a `function_definition` node gives no definitions. |
| AstComplexity.FunctionName | tc/astComplexity.ts:14-15 | The name is never empty. When the declarator has a `child(0)` with non-empty text, the name is that text. Otherwise it is `"unknown"`, and a name other than `"unknown"` is always that text. |
| AstComplexity.MaxDivide | tc/astComplexity.ts:280-285 | `maxDivide` bounds the divide count of every recursive function, and is 0 or one of those counts. |
| AstComplexity.MaxSubtract | tc/astComplexity.ts:280-285 | `maxSubtract` bounds the subtract count of every recursive function, and is 0 or one of those counts. |
| AstComplexity.RecursiveComplexityConstant | tc/astComplexity.ts:280-293 | The recursion label is `O(1)` exactly when every recursive function has both counters at 0. Non-recursive functions never count. |
| AstComplexity.RecursiveComplexityDivide | tc/astComplexity.ts:280-287 | One recursive function with two halving arguments makes the label `O(n log n)`. |
| AstComplexity.GetRecursiveComplexity | tc/astComplexity.ts:273-293 | The `for` loop with its two running maxima returns the label of the independent maxima over recursive functions. |
| AstComplexity.MaxTerm | tc/astComplexity.ts:20-26 | The running maximum from `{0, 0}` is at least every term, and is one of them or `{0, 0}`. |
| AstComplexity.OverallLoopIsMax | tc/astComplexity.ts:20-26 | `overallLoop` bounds every definition's loop term. It is one of them, or `{0, 0}`. |
| AstComplexity.OverallLoopSnoc | tc/astComplexity.ts:21-26 | One more definition takes the larger of the maximum so far and its loop term. |
| AstComplexity.NoDefinitionsConstant | tc/astComplexity.ts:11-30 | Without function definitions the result is `O(1)` under both merges. |
| AstComplexity.StraightLineConstant | tc/astComplexity.ts:11-30 | Without loops and without recursive functions the result is `O(1)`, under either merge. |
| AstComplexity.AnalyzeWrapped | tc/astComplexity.ts:4-31 | The result is always an `O(...)` label, under either merge. |
| AstComplexity.AnalyzeAgreesWithSource | tc/astComplexity.ts:27-30 | When the overall loop term has log power at most one, the source's merge gives the model's result. |
| AstComplexity.AnalyzeComplexityAST | tc/astComplexity.ts:11-30 | From the root node on, `analyzeComplexityAST` returns the merged label of the maximal loop term and the recursion label, merged by the corrected rule. |
| CodeEmotion.RemoveBlockComments | src/codeEmotion.ts:23 | Removing block comments never lengthens the text. What it removes is stated by NoBlockComment, BlockCommentRemoved and UnclosedBlockComment. |
| CodeEmotion.NoBlockComment | src/codeEmotion.ts:23 | A text without `/*` is left unchanged by the first pass. |
| CodeEmotion.UnclosedBlockComment | src/codeEmotion.ts:23 | A `/*` with no `*/` after it is not a match, so the text from it on is kept unchanged. |
| CodeEmotion.BlockCommentRemoved | src/codeEmotion.ts:23 | The first `/*` and the first `*/` after it delimit the shortest run, which is removed; the pass then goes on after it. |
| CodeEmotion.LineCommentRemoved | src/codeEmotion.ts:24 | A `//` removes everything up to, and not including, the end of its line; the pass then goes on from the line terminator. |
| CodeEmotion.RemoveLineCommentsSpec | src/codeEmotion.ts:24 | After the second pass no `//` is left. A text that does not start with `//` keeps its first character. |
| CodeEmotion.StripComments | src/codeEmotion.ts:21-25 | The result of `stripComments` holds no `//`. |
| CodeEmotion.ScanOrdered | src/codeEmotion.ts:35-72 | The decorated line indices of either scan are in range and strictly ascending, so each line is decorated at most once. |
| CodeEmotion.ScanFlagged | src/codeEmotion.ts:84-118 | A line is decorated exactly when the per-line rule flags it, given the comment flag it starts with. |
| CodeEmotion.EndsWithOperatorTrimmed | src/codeEmotion.ts:59 | On a trimmed line, `/[=+\-*\/&|]\s*$/` holds exactly when the last character is one of `=+-*/&|`. |
| CodeEmotion.TrailingSpaceLast | src/codeEmotion.ts:105 | `/\s+$/` holds exactly when the last character is white space. |
| CodeEmotion.SemicolonInside | src/codeEmotion.ts:40-55 | In the semicolon scan, the flag is set by a trimmed line starting with `/*` and cleared only by a skipped line holding `*/`. A line seen inside a comment is never decorated. |
| CodeEmotion.TrailingInside | src/codeEmotion.ts:89-102 | The same for the whitespace scan, on raw lines. |
| CodeEmotion.SemicolonFlagged | src/codeEmotion.ts:37-71 | A line is decorated for a missing semicolon exactly when all of these hold: it is outside a block comment; trimmed, it is non-empty; it does not start with `//`; it has no keyword followed by a word boundary; its last character is none of `{`, `}`, `;`, `)` or an operator. |
| CodeEmotion.TrailingFlagged | src/codeEmotion.ts:86-117 | A line is decorated for trailing white space exactly when all of these hold: it is outside a block comment; it is non-empty; it does not start with `//`; it has non-blank content; it ends in white space. |
| CodeEmotion.SemicolonLine | src/codeEmotion.ts:36-71 | One pass of the semicolon loop body gives the new comment flag and the decoration decision of the per-line rule. |
| CodeEmotion.TrailingLine | src/codeEmotion.ts:85-117 | One pass of the whitespace loop body gives the new comment flag and the decoration decision of the per-line rule. |
| CodeEmotion.ScanLines | src/codeEmotion.ts:33-72 | The line loop both checkers share threads the flag and pushes the index of each flagged line, giving the specification scan's result. |
| CodeEmotion.CheckMissingSemicolon | src/codeEmotion.ts:27-74 | Not C or C++ gives no decorations. Otherwise the decorations are those of the semicolon scan. |
| CodeEmotion.CheckTrailingWhitespace | src/codeEmotion.ts:76-120 | Not C or C++ gives no decorations. Otherwise the decorations are those of the whitespace scan. |
| Refactor.LongFunctionLineFeeds | src/webviewContent.ts:736 | long-function holds exactly when the body has at least 30 line feeds, that is more than 30 pieces. |
| Refactor.DeepNestingBraces | src/webviewContent.ts:782 | deep-nesting holds exactly when `{` occurs at least five more times than `}`. |
| Refactor.TrimmedLines | src/webviewContent.ts:761 | Line k of the result is line k of the body with `trim()` applied, and there is one per line. |
| Refactor.LongLines | src/webviewContent.ts:761 | The filter keeps exactly the lines longer than 10 characters. |
| Refactor.FirstIndex | src/webviewContent.ts:762 | `indexOf` is -1 exactly when the line is absent; otherwise it is the position of its first occurrence. |
| Refactor.DuplicatesFromRepeat | src/webviewContent.ts:762-763 | The filter on "not the first occurrence" keeps something exactly when some value repeats. |
| Refactor.LongLinesRepeat | src/webviewContent.ts:761-763 | A repeat among the long lines is a repeated line that is long. |
| Refactor.DuplicateCodeRepeat | src/webviewContent.ts:760-764 | duplicate-code holds exactly when some trimmed line longer than 10 characters occurs twice. |
| Refactor.MatchedFrom | src/webviewContent.ts:808-809 | The filter keeps only matching rules, in increasing rule order. |
| Refactor.MatchedFromComplete | src/webviewContent.ts:808-809 | The filter keeps every matching rule. |
| Refactor.DetectedIssues | src/webviewContent.ts:808-810 | One description per matching rule. |
| Refactor.DetectedIssuesMatch | src/webviewContent.ts:808-810 | A rule's description is among the detected issues exactly when its pattern matches the body. |
| Refactor.DetectedIssuesOrder | src/webviewContent.ts:808-810 | The issues come in rule order, each at most once. |
| Refactor.FindRule | src/webviewContent.ts:816 | `find` returns the first rule with the description, and nothing when there is none. |
| Refactor.FindRuleOf | src/webviewContent.ts:816 | With distinct descriptions, a rule's description finds that rule. |
| Refactor.LinkForRule | src/webviewContent.ts:815-817 | The link of a rule's description is that rule's first link, never the `#` fallback. |
| Refactor.LinkForUnknown | src/webviewContent.ts:816 | A description that no rule has gets `#`. |
| Refactor.RefactorRulesWellFormed | src/webviewContent.ts:732-796 | The seven rules have distinct descriptions and a first link that is neither empty nor `#`. |
| Refactor.RefactorRulesPatterns | src/webviewContent.ts:732-796 | Rules 0, 3 and 5 are the computed ones. Rules 1, 2, 4 and 6 are regular-expression tests. |
| Refactor.LongFunctionIssue | src/webviewContent.ts:736 | With the actual table, long-function is reported exactly when the body has at least 30 line feeds. |
| Refactor.DuplicateCodeIssue | src/webviewContent.ts:760-764 | With the actual table, duplicate-code is reported exactly when a trimmed line longer than 10 characters occurs twice. |
| Refactor.DeepNestingIssue | src/webviewContent.ts:782 | With the actual table, deep-nesting is reported exactly when there are at least five more `{` than `}`. |
| Refactor.RegexRuleIssue | src/webviewContent.ts:743-795 | A regular-expression rule is reported exactly when its test holds for the body. |
| Refactor.EntryLinks | src/webviewContent.ts:813-818 | Issue i of an entry is the description of the i-th matching rule, and its link is that rule's first link. |
| Refactor.Record | src/webviewContent.ts:807-821 | The names in `functionIssues` are distinct, and they are exactly the keys of the table. |
| Refactor.RecordKeys | src/webviewContent.ts:812-813 | A name is recorded exactly when some function of that name has issues. |
| Refactor.RecordFrom | src/webviewContent.ts:812-818 | Every recorded entry is that of some function with issues under that name. |
| Refactor.RecordLast | src/webviewContent.ts:813 | A recorded name holds the entry of the last function of that name with issues. |
| Refactor.RecordPrefix | src/webviewContent.ts:813 | Later functions only append names to the order. |
| Refactor.RecordOrder | src/webviewContent.ts:823 | Names come in the order of their first function with issues. |
| Refactor.IssueSumZero | src/webviewContent.ts:819 | The total is 0 exactly when no function has issues. |
| Refactor.Cards | src/webviewContent.ts:823-849 | One card per recorded name. |
| Refactor.RecordUniform | src/webviewContent.ts:813-817 | Every recorded entry has one link per issue. |
| Refactor.NoIssuesExactly | src/webviewContent.ts:851-859 | The page is the single "No issues detected" card exactly when the count is 0, and that is exactly when no function has issues. |
| Refactor.CardContents | src/webviewContent.ts:823-849 | The last function of a name with issues gets a card with its name, its issue count as badge and one item per issue with its link. |
| Refactor.CardsSound | src/webviewContent.ts:823-849 | Every function card belongs to a function with issues and shows that function's entry. |
| Refactor.RenderCards | src/webviewContent.ts:823-849 | The `for ... of` loop renders the recorded names in insertion order, one card each. |
| Refactor.RecordIssues | src/webviewContent.ts:807-821 | The `forEach` loop builds the table of the specification and the sum of all issue counts. |
| Refactor.GetRefactorHTMLContent | src/webviewContent.ts:798-865 | `issueCount` is the sum of all issue counts, and `html` is the cards, or the single "No issues detected" card. |
| Lizard.SafeScore | out/extension.js:136 | The clamp lies in 1..25. It is the score itself when in range, 1 below and 25 above. |
| Lizard.ColorForComplexity | out/extension.js:102-137 | A score from 1 to 25 gets table entry `score - 1`. Scores ≤ 1 give `#00ff00` and scores ≥ 25 give `#1a0000`. Every colour is a `#` and six lower-case hexadecimal digits. |
| Lizard.ColorTableShape | out/extension.js:109-135 | Every entry of the table is a `#` and six lower-case hexadecimal digits. |
| Lizard.ColorTableDistinct | out/extension.js:109-135 | The 25 colours are all different. |
| Lizard.ColorsDistinct | out/extension.js:102-137 | Two scores get the same colour exactly when they clamp to the same value. |
| Lizard.PieceEnd | out/extension.js:179 | The longest run of one pattern piece matches that piece. |
| Lizard.GreedySound | out/extension.js:179 | What the piece-by-piece match returns is a way to cut the line by the pattern. |
| Lizard.GreedyShape | out/extension.js:179 | The match has one part per piece, each matching its piece. |
| Lizard.RowPatternSeparated | out/extension.js:179 | In the row pattern every run is followed by a piece that cannot continue it. |
| Lizard.GreedyComplete | out/extension.js:179 | For such a pattern, any way to cut the line is the one found, so backtracking finds nothing more. |
| Lizard.Captures | out/extension.js:181-185 | The captured name is non-empty and holds neither white space nor `@`. |
| Lizard.ParseRow | out/extension.js:179-185 | A matched name is non-empty and holds neither white space nor `@`. |
| Lizard.ParseRowFits | out/extension.js:179-185 | A line that can be cut by the row pattern is accepted, with that cut's fields. |
| Lizard.ParseRowSound | out/extension.js:179-185 | An accepted line can be cut by the row pattern, and its fields are that cut's captures read as decimals. |
| Lizard.AtLines | out/extension.js:171 | The lines considered are exactly the lines of the output that hold `@`. |
| Lizard.FilterAppend | out/extension.js:171 | The filter keeps a line exactly when it holds `@`, line by line, so the kept lines stay in output order and repeated lines are kept each time. |
| Lizard.KeyInjective | out/extension.js:186 | For names without `@`, `name@startLine` determines the name and the start line. |
| Lizard.CollectDistinct | out/extension.js:186-190 | No two kept rows share a key. |
| Lizard.CollectKeys | out/extension.js:186-190 | `uniqueLines` holds exactly the keys of the rows that matched. |
| Lizard.CollectSound | out/extension.js:186-192 | Every kept row is the first matched row with its key. |
| Lizard.CollectFirst | out/extension.js:186-192 | The first matched row with a key is kept. |
| Lizard.CollectPrefix | out/extension.js:186-192 | Later lines only append records. |
| Lizard.CollectOrder | out/extension.js:186-192 | Kept rows come in the order of their first occurrences. |
| Lizard.CollectCovers | out/extension.js:186-192 | Every matched row has a kept record with its name and start line. |
| Lizard.ParsedNames | out/extension.js:179 | No matched name holds `@`, so the key condition of `CollectCovers` always holds. |
| Lizard.Infos | out/extension.js:191-192 | One record per kept row, in order, with the row's score and a colour of the 25-entry table. |
| Lizard.InfosColors | out/extension.js:102-137 | Two records have the same colour exactly when their scores clamp to the same value between 1 and 25. |
| Lizard.DecorationOf | out/extension.js:193-202 | A record's decoration has the record's colour and runs from its start line to its end line minus one. Its hover text is `Complexity: ` followed by decimal digits that read back as the record's score. |
| Lizard.ParseLizardOutput | out/extension.js:171-204 | The parse loop with its `uniqueLines` set returns the records of the kept rows and one decoration per record, so both lists have equal length. |
| Lizard.LocationInjective | out/extension.js:214 | The location text `start-end` determines both line numbers. |
| Lizard.TableData | out/extension.js:210-216 | One table row per record. |
| Lizard.TableRowOf | out/extension.js:210-216 | Row k shows record k's name, score (as complexity), nloc (as loc), colour, and a location that gives back its two lines. |

## Left out

- Parser construction (tc/astComplexity.ts:1-9): the native tree-sitter library is replaced by a `Node` value given as input. The model does not tie a node's `text` to its children's texts.
- `maxLoopDepth` (tc/astComplexity.ts:17) is always 0 and never read, so the function record does not carry it.
- The null checks on `child`, `arg` and `nameNode` are not modelled separately. A named child of a `Node` always exists, and an absent field or child is an `Option`.
- The editor API is left out: status bar, hover, decoration types, ranges, webview panels, messages, `activate` and `deactivate`. The code-emotion scans return line indices instead of `DecorationOptions`, and `isCppFile` takes the language id.
- The lizard process is left out: `spawn`, its stdout and stderr callbacks and the error message (out/extension.js:160-170). The parser starts from the captured stdout string. `langMap` and the file-extension selection are left out too.
- The posting of the table and the store of decorations per file (out/extension.js:205-220) are editor plumbing.
- `getColorForComplexity` in extension.ts (floating-point normalisation) and `updateEmojiDecorations` in src/codeEmotion.ts are not part of this model.
- The HTML text of the webview and `escapeHtml` are not modelled. Cards are a list of `Card` values (name, badge count, items of issue and link) instead of exact HTML whitespace.
- Refactor.RegexRuleIssue: nested-loops, magic-numbers, long-parameter-list and temp-variable (src/webviewContent.ts:745, 751, 773, 790) are single regular-expression tests. They enter as an oracle on (key, body), so what those four accept is not modelled.
- Refactor.RenderCards: `Object.entries` is taken in insertion order. JavaScript puts integer-like keys first, and a `__proto__` name does not create an entry. Neither is modelled.
- A JavaScript `Set` of strings is a duplicate-free sequence in insertion order (`ids`) or a Dafny `set` (`uniqueLines`, `halfVars`, `subtractVars`).
- Strings are sequences of Unicode characters. JavaScript measures length in UTF-16 code units, which differs for characters outside the Basic Multilingual Plane (the `length > 10` of duplicate-code).
- Lizard.ParseRow: numbers are unbounded naturals. `parseInt` loses precision above 2^53.
- CodeEmotion.ScanLines: the two source loops are written once, over the per-line rule as a parameter. Their bodies appear as SemicolonLine and TrailingLine, which are proved to compute that rule.
- AstComplexity.AnalyzeComplexityAST: the method merges with the corrected rule (`Combine`), not with the source's `combineComplexities` (tc/astComplexity.ts:295-302). It does not promise the source's result when the loop label has a log power of two or more. `AstComplexity.AnalyzeAsWritten` is the source's result, and AnalyzeAgreesWithSource says when the two agree.
- Compiled copies and older variants of the same logic are not part of this model: out/webviewContent.js, out/webviewContents_final.js, out/codeEmotion.js and ref/extension.ts.

## Findings

| source | as written | input that shows it | evidently intended | confidence | as-written member | corrected member |
|---|---|---|---|---|---|---|
| tc/astComplexity.ts:302 | `c.replace("O(", "").replace(")", "")` removes the first `)`, which may belong to `(log n)` rather than close the label | a loop term `{0, 2}` (label `O((log n)^2)`) with a linear recursion (`O(n)`) merges to `O((log n^2) * n)` | remove the whole `O(` ... `)` wrapper, giving `O((log n)^2 * n)` | not executed | ComplexityLabels.CombineAsWrittenMangles | ComplexityLabels.CombineMultiplies |

`ComplexityLabels.CombineAsWritten` is the source's merge. `ComplexityLabels.Combine` is the corrected merge, which the pipeline (`AstComplexity.Analyze`) uses. `AstComplexity.AnalyzeAgreesWithSource` shows that the two differ only when the overall loop term has a log power of two or more.
