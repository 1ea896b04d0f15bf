# SpacePony compiler front end: verified core

A model of the parts of the compiler front end where the code is furthest from what it
is for, with proofs that it does what it is for. `dafny verify dfyconfig.toml` checks the
whole project.

- **Grammar printer** (`Bnf*.dfy`). `bnf_simplify` rewrites a grammar in place: it drops
  never and nop nodes, collapses lone nodes and inlines rules, until nothing changes.
  Sentences are strings of tokens; a tree derives them with a number of rule unfoldings.
  The in-place writes are writes at a path in the body of a rule, so that the order of
  overwriting and copying is the code's. Inlining a rule into itself goes wrong in the code
  (the node is overwritten before the body that contains it is copied), exactly when the
  reference is inside the body it is replaced by. All languages are kept by a pass in which
  that does not happen, and it never happens where inlining is acyclic, which is also what
  the outer loop needs to end. `bnf_avoid_antlr_bug` keeps all languages too; the names of
  its rules are a parameter.
- **Loop lowering** (`ControlFlow`, `BasicBlocks`, `Lowering`, `LoweringCorrect`,
  `LoweringLimits`, `CodeBuilder`). The structured semantics has an accumulator for the
  last body value or none; the generator has no such flag and emits the condition twice.
  Programs are nested sequences, conditionals, while and repeat loops, break with or without a value, and
  continue; the target is numbered blocks with branches and phis. Primitive operations are
  arbitrary functions on arbitrary worlds. A break or continue in the condition of a loop
  belongs to the loop outside in the passes before the generator and to the loop itself in
  the generator; the semantics is given under both readings.
- **Tree checker** (`Tree*.dfy`). The worklist with id-only matching against the direct
  recursive check, for an arbitrary table of rules and groups. Groups must not contain each
  other in a circle, on which the code would not return either. A root that no root rule
  matches is not an error.
- **128-bit literals** (`WordArith`, `LexInt`, `LexDouble`, `LexPrint`). Words wrap around
  explicitly; `|` and `&` are defined bit by bit. Binary64 numbers are integers in units of
  2^-1074, so that distances are exact.
- **Lexer** (`LexText`, `LexIndent`, `Lexer`). One object with its place, line, column,
  buffer and error count. A failed assertion that input is left is an outcome of its own
  (`Aborted`), and it is proved to need a source whose last character is a backslash.
- **Symbol tables** (`Symbol*.dfy`). The hash map is a map visited in no particular order.
- **Syntax trees** (`Ast*.dfy`). Nodes are objects with their links; beside the links a
  forest keeps the lists of children they stand for. Nodes that are freed, or detached with
  their flags left as they were, are no longer vouched for.
- **Parser building** (`FlatTrees.dfy`, `ParserBuild.dfy`). The builders and the cached last
  child. A finite tree says which flatten nodes are inside which.
- **Trait bitmaps** (`TraitBitmap.dfy`).

Where the code does not do what its comments or its name promise, the code is followed:

- `normalise_string` is said to remove common indentation; it also removes the newline of a
  blank line that is no longer than the indentation (`LexIndent.BlankLineLost`).
- A failing `symtab_add` can leave the folded name behind, when the name itself was only
  given a status in this scope (`SymbolTable.FailedAddLeavesEntry`).
- `bnf_simplify` changes the language of a rule that is inlined into itself
  (`BnfSimplifier.InlineExact`, `BnfSimplifier.SelfInlineChangesLanguage`).
- A break in the condition of an inner loop is checked as one of the outer loop and compiled
  as one of the inner (`LoweringLimits.ConditionBreakDiffers`), and can end in code that is
  held to be unreachable (`LoweringLimits.ConditionBreakStrays`).
- `symtab_inherit_status` keeps the branch count of an entry whose status it changes, so a
  variable can be taken for defined that is not, and the assertion in
  `ast_consolidate_branches` can fail (`SymbolBranches.StaleCount`,
  `SymbolBranches.StaleCountOrder`).

## Model

| member | source | states |
|---|---|---|
| `BnfSimplifier.GrammarTree.Simplify` | src/libponyc/ast/bnfprint.c:667-678 | Passes until nothing changes: the loop ends, every rule derives exactly the token strings it derived before, and no sequence, choice or repeat is left with a never, a nop or a lone child to collapse, nor any reference to an inlinable rule. |
| `BnfSimplifier.PassKeepsLanguage` | src/libponyc/ast/bnfprint.c:492-678 | A pass in which later rules see the already simplified bodies of earlier ones leaves the language of every tree unchanged, for every grammar. The pass in place computes this one when no rule is inlined into itself (BnfSimplifier.GrammarTree.Pass). |
| `BnfSimplifier.PassFixpoint` | src/libponyc/ast/bnfprint.c:667-678 | A pass that reports no change has changed nothing and has found every body in normal form. |
| `BnfSimplifier.PassKeepsRank` | src/libponyc/ast/bnfprint.c:667-678 | If inlining is acyclic (a weight on rules), a pass keeps it so, and every pass that reports a change makes the grammar strictly lighter. |
| `BnfSimplifier.RankedNoSelfInline` | src/libponyc/ast/bnfprint.c:572-607 | In a ranked grammar no rule is ever inlined into itself, which is what the in-place copy needs. |
| `BnfSimplifier.SelfInlineChangesLanguage` | src/libponyc/ast/bnfprint.c:572-607 | What the half-overwritten copy can do: a rule marked for inlining that refers to itself and derives nothing comes to derive a string. |
| `BnfSimplifier.InlineExact` | src/libponyc/ast/bnfprint.c:572-607 | Overwriting a reference and then copying the children of the rule it names writes exactly the body of that rule if and only if the reference is not inside that very body. |
| `BnfSimplifier.SameLanguageSameRules` | src/libponyc/ast/bnfprint.c:471-487 | Grammars whose trees have the same languages give every rule name the same sentences. |
| `BnfSimplifier.GrammarTree.Pass` | src/libponyc/ast/bnfprint.c:670-677 | One iteration of the outer loop over all definitions, in place, computes the pass and its changed flag. |
| `BnfSimplifier.GrammarTree.SimplifyNode` | src/libponyc/ast/bnfprint.c:492-612 | The in-place rewriting of one node replaces exactly the subtree at its path by the simplified one, and reports a change exactly when there is one. |
| `BnfSimplifier.GrammarTree.SimplifyChildren` | src/libponyc/ast/bnfprint.c:618-662 | The child loop simplifies each child, unlinks those that became never or nop, and says which kinds it saw. |
| `BnfSimplifier.GrammarTree.InlineReference` | src/libponyc/ast/bnfprint.c:572-607 | A reference is overwritten by the rule it names exactly when that rule is inlinable. |
| `BnfSimplifier.GrammarTree.Collapse` | src/libponyc/ast/bnfprint.c:507-571 | Turning a settled node into never, nop or its only child, with the optional flag handled as in the source. |
| `BnfSimplify.SimplifyDefKeepsLanguage` | src/libponyc/ast/bnfprint.c:492-612 | Replacing the body of any one rule by its simplified form keeps the language of every tree of the grammar. |
| `BnfSimplify.SimplifySound` | src/libponyc/ast/bnfprint.c:492-612 | Whatever a tree derives with k rule unfoldings, the simplified tree derives with k. |
| `BnfSimplify.SimplifyComplete` | src/libponyc/ast/bnfprint.c:492-612 | Whatever the simplified tree derives with k unfoldings, the tree derives with k + 1. |
| `BnfSimplify.SettleExact` | src/libponyc/ast/bnfprint.c:507-571 | Dropping never and nop children and collapsing lone ones changes nothing that a sequence, choice or repeat derives. |
| `BnfSimplify.RebodyKeepsLanguage` | src/libponyc/ast/bnfprint.c:492-678 | A body may be replaced by any other that derives the same strings in the old grammar, even if both refer to the rule itself. |
| `BnfTermination.NormalIffUnchanged` | src/libponyc/ast/bnfprint.c:492-612 | The changed flag is false for a tree exactly when the tree is in normal form, and then it is left as it is. |
| `BnfTermination.SimplifyLighter` | src/libponyc/ast/bnfprint.c:492-678 | Simplifying never makes a tree heavier and every reported change makes it lighter. |
| `BnfTermination.StepKeepsRank` | src/libponyc/ast/bnfprint.c:667-678 | Simplifying one definition keeps the grammar closed and ranked and makes it lighter if anything changed. |
| `BnfClean.CleanedExact` | src/libponyc/ast/bnfprint.c:392-432 | A clean tree in the clean grammar derives exactly the sentences of the raw one that contain no $-token, at every depth. |
| `BnfClean.CleanedRule` | src/libponyc/ast/bnfprint.c:880-888 | For every rule: its clean language is its raw language restricted to sentences without $-tokens. |
| `BnfClean.SimplifyClean` | src/libponyc/ast/bnfprint.c:892-897 | The same after simplification: each rule of the simplified clean grammar derives its clean sentences and no others. |
| `BnfClean.TokenSet` | src/libponyc/ast/bnfprint.c:392-432 | The loop that appends token references drops or keeps $-tokens as the cleaned grammar does. |
| `BnfAntlr.AvoidingKeepsLanguage` | src/libponyc/ast/bnfprint.c:682-729 | Moving choices under repetitions into rules of their own, nested ones included, leaves every rule of a closed grammar with exactly its sentences. |
| `BnfAntlr.Forth` | src/libponyc/ast/bnfprint.c:682-729 | Whatever a tree derives with j unfoldings, what it became derives with at most j times the height of the bodies more. |
| `BnfAntlr.Back` | src/libponyc/ast/bnfprint.c:682-729 | Whatever the new tree derives, the old one derives with no more unfoldings. |
| `BnfAntlr.AvoidedIsQuiet` | src/libponyc/ast/bnfprint.c:682-729 | Neither a tree that has been dealt with nor any rule added for it has anything left to move out. |
| `BnfAntlr.SimplifyStaysLone` | src/libponyc/ast/bnfprint.c:560-570 | A repetition that has one child when the grammar is built still has one, or is gone, after simplification. |
| `BnfAntlr.Avoider.Avoid` | src/libponyc/ast/bnfprint.c:682-729 | Children first, then the node: the tree, the rules appended and the numbers used are those of the function. |
| `BnfAntlr.Avoider.Run` | src/libponyc/ast/bnfprint.c:900-900 | Walking the list of rules while new ones are appended to it comes to an end, with the old rules rewritten and the new ones behind them. |
| `CodeBuilder.GenFunction` | src/libponyc/codegen/gencontrol.c:11-630 | Generating a body by moving a builder, appending blocks and phi inputs and pushing and popping loop frames gives blocks that behave, in every world, as the program does when a break or continue in the condition of a loop is taken for one of that loop; and as the program is meant, without getting stuck, when no condition holds such a jump. |
| `LoweringCorrect.LoweringIsCorrect` | src/libponyc/codegen/gencontrol.c:11-630 | Where no condition of a loop breaks or continues the loop outside: the blocks return a value and a world exactly when the structured semantics does, the same ones; they run for ever exactly when it does; and they never get stuck. |
| `LoweringCorrect.LoweringIsExact` | src/libponyc/codegen/gencontrol.c:11-630 | Every accepted body: the blocks return, run for ever or get stuck exactly when the program does under the generator's reading, in which such a jump leaves the loop whose condition it is in; they get stuck only if a loop held to jump away has a condition that may break with a value. |
| `LoweringLimits.ConditionBreakDiffers` | src/libponyc/codegen/gencontrol.c:249-255 | That reading is not the one recorded: `while true do while (if true then break 7 else false end) do 2 else 3 end; break 9 else 4 end` passes every check and means 7; its code returns 9. |
| `LoweringLimits.ConditionBreakStrays` | src/libponyc/pass/refer.c:1504-1535 | With `continue` for body and else clause of the inner loop and nothing after it, the program means 7 and its code runs into the block that the jumps-away flag made unreachable. |
| `ControlFlow.OwnersAgree` | src/libponyc/pass/refer.c:1749-1764 | Where no condition holds such a jump, the two readings are the same, for every bound on iterations. |
| `LoweringCorrect.Terminating` | src/libponyc/codegen/gencontrol.c:11-630 | If running the body ends, with a value or astray, the blocks do just that and nothing else. |
| `LoweringCorrect.Diverging` | src/libponyc/codegen/gencontrol.c:11-630 | If the body does not end, the blocks run for any number of steps. |
| `LoweringCorrect.Simulates` | src/libponyc/codegen/gencontrol.c:11-630 | Every expression, in every context of enclosing loops: the generated piece reaches the place, registers and world that the outcome of evaluation calls for. |
| `LoweringCorrect.SimWhile` | src/libponyc/codegen/gencontrol.c:218-354 | A while loop: the condition is generated twice so that no flag is needed to tell whether a body value exists; the else value is used exactly when the last iteration gave none; jumps in either copy of the condition go to the targets of the loop itself. |
| `LoweringCorrect.SimRepeat` | src/libponyc/codegen/gencontrol.c:356-496 | A repeat loop: continue goes to the copy of the condition that has no body value, also from within a condition. |
| `LoweringCorrect.SimIf` | src/libponyc/codegen/gencontrol.c:32-176 | A conditional joins the values of the branches that fall through, or has no value if none does. |
| `LoweringCorrect.SimBreak` | src/libponyc/codegen/gencontrol.c:567-617 | A break evaluates its value first, in the loop, and carries it into the join of that loop. |
| `Lowering.GenBuilds` | src/libponyc/codegen/gencontrol.c:11-630 | Generation only appends blocks and phi inputs, leaves every earlier block closed, and leaves an open block exactly when the expression can fall through. |
| `CodeBuilder.Builder.GenExpr` | src/libponyc/codegen/gencontrol.c:11-630 | The builder's state after any expression is the one the functional generator gives, and the frame stack is as before. |
| `CodeBuilder.Builder.GenWhileLoop` | src/libponyc/codegen/gencontrol.c:218-354 | The builder's while loop, with the frame popped before the else clause is generated. |
| `CodeBuilder.Builder.GenRepeatLoop` | src/libponyc/codegen/gencontrol.c:356-496 | The builder's repeat loop, with the frame popped before the else clause is generated. |
| `CodeBuilder.Builder.GenConditional` | src/libponyc/codegen/gencontrol.c:32-176 | The builder's conditional. |
| `CodeBuilder.Builder.GenBreak` | src/libponyc/codegen/gencontrol.c:567-617 | The builder's break, which branches to the target of the innermost frame, with or without a value. |
| `CodeBuilder.Builder.PushLoop` | src/libponyc/codegen/codegen.c:1082-1097 | A loop frame is pushed on top of the others. |
| `CodeBuilder.Builder.PopLoop` | src/libponyc/codegen/codegen.c:1099-1102 | Only the innermost frame is popped. |
| `ControlFlow.FlagsHold` | src/libponyc/pass/refer.c:1359-1592 | The static flags are right about every run, under both readings of jumps in conditions: what cannot break, continue or fall through never does. |
| `ControlFlow.NoEscape` | src/libponyc/codegen/gencontrol.c:567-630 | An expression checked outside any loop contains no break or continue that would leave it. |
| `ControlFlow.JumpsSomewhere` | src/libponyc/pass/refer.c:1359-1592 | An expression that always jumps away contains a break or a continue. |
| `TreeChecker.Checker.CheckTree` | src/libponyc/ast/treecheck.c:350-390 | The worklist checker ends and reports an error exactly when the direct recursive check of the whole tree finds one, for every table of rules and nested groups and every tree. |
| `TreeChecker.Checker.Call` | src/libponyc/ast/treecheck.c:300-317 | A rule or group function: in id-only mode only the match, otherwise the local check with the children put on the worklist. |
| `TreeChecker.Checker.CheckFromList` | src/libponyc/ast/treecheck.c:84-111 | Trying functions in order, with the matching function remembered in id-only mode. |
| `TreeChecker.Checker.TakeChildren` | src/libponyc/ast/treecheck.c:113-171 | Children are matched by id, as many as allowed, and their checks put off. |
| `TreeChecker.Checker.Extras` | src/libponyc/ast/treecheck.c:178-269 | Type, leftover children, data and scope of a node. |
| `TreeWorklist.LocalExact` | src/libponyc/ast/treecheck.c:84-317 | The direct check of a node fails exactly when its local check fails or something it puts on the worklist does. |
| `TreeWorklist.LocalLighter` | src/libponyc/ast/treecheck.c:366-385 | What a check puts on the worklist is smaller than the node it came from, so the worklist empties. |
| `TreeWorklist.MatchIsFound` | src/libponyc/ast/treecheck.c:300-317 | A function matches a node by id exactly when its direct check does not pass the node on. |
| `TreeWorklist.FirstMatchDecides` | src/libponyc/ast/treecheck.c:84-111 | The first function that matches by id is the one whose verdict the direct check of a list takes. |
| `LexDouble.Double` | src/libponyc/ast/lexint.c:291-346 | For every 128-bit value: no finite binary64 number is nearer than the one whose bits are returned, and of two that are equally near it is the one with an even last digit. |
| `LexDouble.RoundedNearest` | src/libponyc/ast/lexint.c:304-341 | A significand rounded half to even in units of its last place is nearest among all finite numbers, including those of smaller exponent. |
| `LexDouble.RoundsWide` | src/libponyc/ast/lexint.c:310-334 | The two extra bits and the sticky bit of the 55-bit mantissa round the discarded part half to even. |
| `LexDouble.AssembleRounded` | src/libponyc/ast/lexint.c:336-344 | A carry out of the mantissa moves into the exponent without changing the number. |
| `LexDouble.FiftyFiveBits` | src/libponyc/ast/lexint.c:313-328 | The top 55 bits of the value, the last of them set if any lower bit is. |
| `LexDouble.SignificantBits` | src/libponyc/ast/lexint.c:296-299 | The position of the highest set bit over both words. |
| `LexInt.CountLeadingZeros` | src/libponyc/ast/lexint.c:274-289 | The binary search finds the number of leading zero bits, 64 for zero. |
| `LexInt.Accum` | src/libponyc/ast/lexint.c:248-269 | For every base and every digit below it: succeeds exactly when value * base + digit fits 128 bits and then stores it; otherwise leaves the value unchanged. |
| `LexInt.Mul64` | src/libponyc/ast/lexint.c:171-188 | Shift and add computes the product modulo 2^128. |
| `LexInt.Div64` | src/libponyc/ast/lexint.c:204-236 | Shift and subtract, with the index wrapping below zero to end the loop, computes the floor of the quotient; zero for a zero divisor. |
| `LexInt.ShlValue` | src/libponyc/ast/lexint.c:46-69 | A left shift of two words by any amount multiplies by a power of two modulo 2^128. |
| `LexInt.ShrValue` | src/libponyc/ast/lexint.c:71-94 | A right shift of two words by any amount is floor division by a power of two. |
| `LexInt.SetBitValue` | src/libponyc/ast/lexint.c:104-114 | Setting a bit below all set bits adds its weight. |
| `LexInt.Add` | src/libponyc/ast/lexint.c:116-124 | Two-word addition with carry is addition modulo 2^128. |
| `LexInt.Add64` | src/libponyc/ast/lexint.c:126-134 | Adding one word is addition modulo 2^128. |
| `LexInt.Sub` | src/libponyc/ast/lexint.c:136-144 | Two-word subtraction with borrow is subtraction modulo 2^128. |
| `LexInt.Sub64` | src/libponyc/ast/lexint.c:146-154 | Subtracting one word is subtraction modulo 2^128. |
| `LexInt.Cmp` | src/libponyc/ast/lexint.c:15-30 | Comparing words from the top compares the numbers; equal exactly when both words are. |
| `LexInt.Cmp64` | src/libponyc/ast/lexint.c:32-44 | Comparing two words with one compares the numbers. |
| `LexInt.AppendCharValue` | src/libponyc/ast/lexint.c:238-246 | Appending a byte is multiplying by 256 and adding, modulo 2^128. |
| `Lexer.IntegerRoundTrip` | src/libponyc/ast/token.c:156-207 | Printing any two-word integer and lexing the text, followed by anything that cannot continue a number, gives an integer token with the same two words. |
| `Lexer.StringRoundTrip` | src/libponyc/ast/token.c:241-297 | For every byte string, zero bytes included, lexing its escaped text in quotes gives a string token with exactly its bytes and reports no error. |
| `LexPrint.PrintInteger` | src/libponyc/ast/token.c:156-207 | The buffer holds the decimal form and its terminator; the 63-digit bound never truncates. |
| `LexPrint.ReverseInPlace` | src/libponyc/ast/token.c:194-204 | Exchanging from both ends reverses the digits and leaves the rest of the buffer alone. |
| `LexPrint.DecimalRead` | src/libponyc/ast/token.c:176-192 | The decimal form of a number has digits only and stands for that number. |
| `LexPrint.PrintEscaped` | src/libponyc/ast/token.c:241-297 | The two passes allocate exactly enough room and write the escaped form of every byte. |
| `LexText.ScanEscaped` | src/libponyc/ast/lexer.c:861-895 | The string scanner undoes escaping, for every string and whatever follows. |
| `LexText.NumberDecimal` | src/libponyc/ast/lexer.c:1114-1146 | A printed integer is read whole, not as another base or a real. |
| `LexText.OverflowStays` | src/libponyc/ast/lexer.c:1002-1006 | A literal that has outgrown 128 bits stays too large, so failing at the first overflow is failing exactly when the whole literal does not fit. |
| `Lexer.Lexer.LexInteger` | src/libponyc/ast/lexer.c:959-1029 | Succeeds exactly when the run of digits has at least one, all below the base, no doubled or final underscore, and its value appended to the earlier one fits 128 bits; then that value, the digit count and the place are exact. |
| `Lexer.Lexer.Next` | src/libponyc/ast/lexer.c:1326-1400 | One token: white space and nested comments before it are skipped exactly, the token is the one the text there spells, in its form for a new line if it is a symbol that has one and is on one, at least one byte is consumed unless the source is at its end; its line and column are exact as long as no error has been reported; and it is marked as on a new line exactly when it is. |
| `LexText.FreshLineExact` | src/libponyc/ast/lexer.c:503-506 | A symbol takes its form for a new line exactly when a newline outside comments comes before it, or it is the first token, with no block comment in between. |
| `LexText.LineBrokenExact` | src/libponyc/ast/lexer.c:30-34 | A token is marked as on a new line exactly when a newline outside comments comes before it, or it is the first; block comments hide nothing. |
| `Lexer.Lexer.Tokens` | src/libponyc/ast/lexer.c:1326-1400 | Calling for tokens until the end comes to an end, after at most one call per byte and one more. |
| `Lexer.Lexer.Consume` | src/libponyc/ast/lexer.c:420-436 | Keeps ptr + len; line and column stay those of the consumed text if only the first consumed character can be a newline. |
| `LexText.ColumnAfter` | src/libponyc/ast/lexer.c:417-436 | Line and column after a run of characters of which only the first may be a newline. |
| `Lexer.Lexer.NestedComment` | src/libponyc/ast/lexer.c:471-507 | A block comment ends where all its openings are closed, or is reported as not terminating. |
| `LexText.CommentNests` | src/libponyc/ast/lexer.c:471-507 | Comments nest: text that closes some openings closes just these inside any number of further ones. |
| `Lexer.Lexer.ReadString` | src/libponyc/ast/lexer.c:861-895 | A quoted string: its text, the place after it and the number of bad escapes; or an error if it does not end. |
| `Lexer.Lexer.ReadEscape` | src/libponyc/ast/lexer.c:750-826 | An escape sequence, its value or one reported error; the assertion on input fails exactly if the backslash is the last character. |
| `Lexer.Lexer.ReadHexEscape` | src/libponyc/ast/lexer.c:717-743 | Hexadecimal digits up to the wanted number, or minus what was read. |
| `LexText.Utf8RoundTrip` | src/libponyc/ast/lexer.c:830-856 | Every code point can be recovered from the bytes written for it. |
| `Lexer.Lexer.ReadCharacter` | src/libponyc/ast/lexer.c:900-946 | A character literal is the base-256 number of its codes modulo 2^128; an empty one is an error. |
| `Lexer.Lexer.TripleString` | src/libponyc/ast/lexer.c:664-708 | A triple-quoted string ends at the first three quotes, takes further quotes into its text, refuses text after the opening quotes of a multi-line one, and is otherwise stripped of its indentation. |
| `Lexer.Lexer.ReadNumber` | src/libponyc/ast/lexer.c:1114-1146 | Hexadecimal, binary, decimal and real literals, with the parts of a real one. |
| `Lexer.Lexer.ReadReal` | src/libponyc/ast/lexer.c:1034-1093 | The fraction extends the integral part as one number and counts its digits; a dot without a digit after it belongs to the next token. |
| `Lexer.Lexer.ReadKeyword` | src/libponyc/ast/lexer.c:1184-1204 | The longest name; a keyword if the table has it. |
| `Lexer.Lexer.ReadHash` | src/libponyc/ast/lexer.c:1208-1219 | The keyword that a hash starts, or the hash alone. |
| `Lexer.Lexer.ReadDollar` | src/libponyc/ast/lexer.c:1223-1243 | In test mode the keyword or name that a dollar starts; otherwise one reported error. |
| `Lexer.Lexer.ReadSymbol` | src/libponyc/ast/lexer.c:1246-1289 | The first symbol of the table that the text starts with, in its form for a new line if it is on one, or one reported error. |
| `LexText.LongestSymbol` | src/libponyc/ast/lexer.c:55-58 | If longer symbols come before their prefixes, that is the longest symbol the text starts with. |
| `LexIndent.Normalise` | src/libponyc/ast/lexer.c:551-659 | The in-place compaction equals the line-by-line specification. |
| `LexIndent.NormalUnique` | src/libponyc/ast/lexer.c:551-659 | That specification has only one outcome. |
| `LexIndent.LeadingSpace` | src/libponyc/ast/lexer.c:574-608 | The single pass with its flags finds the least indentation of the lines whose first non-blank is not white space. |
| `LexIndent.TrimLines` | src/libponyc/ast/lexer.c:610-640 | Closing up in place gives every line without that many leading bytes. |
| `LexIndent.TrimTrailing` | src/libponyc/ast/lexer.c:642-658 | A last line of white space is dropped. |
| `LexIndent.CommonIndent` | src/libponyc/ast/lexer.c:551-640 | Every line that counts loses the same number of bytes, all spaces or tabs, and at least one of them is left without indentation. |
| `LexIndent.LinesKept` | src/libponyc/ast/lexer.c:617-637 | The number of lines is kept exactly when no line but an empty one is as short as the indentation, its newline counted. |
| `LexIndent.BlankLineLost` | src/libponyc/ast/lexer.c:545-550 | Otherwise a blank line disappears, although only indentation is said to be removed. |
| `SymbolBranches.SettledExact` | src/libponyc/ast/symtab.c:209-255 | After folding any branches into any starting table and settling: a name has a status exactly when the table or a branch gave it one; it is consumed if anything consumed it; else, if it started as undefined, it is defined exactly when the enclosing scopes define it or the count it started with plus the branches that define it make up the number of branches. |
| `SymbolBranches.DefiniteAssignment` | src/libponyc/ast/symtab.c:209-255 | The intended reading, defined exactly when all counted branches define it or the enclosing scopes do, is met if and only if the scopes define it, or no count was brought along, or that count neither makes up the number of branches nor comes on top of it. |
| `SymbolBranches.FreshCounts` | src/libponyc/ast/symtab.c:209-255 | With no count brought along, definite assignment is as intended and the asserted bound on counts holds. |
| `SymbolBranches.StaleCount` | src/libponyc/ast/symtab.c:182-206 | A count can be brought along, since passing a status outwards keeps the old count: `if a then (if b then x = 1 else x = 2 end); consume x; if c then x = 3 end end` leaves x defined, although neither branch does. |
| `SymbolBranches.StaleCountOrder` | src/libponyc/ast/ast.c:1317-1320 | With such a branch the asserted bound on counts can fail, and the order of the branches can decide whether x is defined. |
| `SymbolBranches.AssertedExact` | src/libponyc/ast/ast.c:1317-1320 | The asserted bound on counts holds exactly when no undecided name has counted more than there are branches. |
| `SymbolBranches.OrderExact` | src/libponyc/ast/symtab.c:209-255 | Two orders of the same branches agree on a name, up to which kind of consumption is recorded, if and only if it is decided otherwise or the counts of the two first entries lead to the same verdict. |
| `SymbolBranches.OrderIrrelevant` | src/libponyc/ast/symtab.c:209-255 | So any order gives the same result where the starting table knows the name or no branch brings a count. |
| `SymbolBranches.InheritStatus` | src/libponyc/ast/symtab.c:182-206 | Passing statuses outwards, in any order of the hash map: every name of the inner table that is not declared there gives its status, and the count of an entry that is there already stays. |
| `SymbolBranches.SetStatus` | src/libponyc/ast/symtab.c:166-180 | Setting a status makes an entry or changes the status of the one there is, and no other. |
| `SymbolBranches.JoinBranches` | src/libponyc/pass/refer.c:1436-1459 | Inheriting from each branch into a table the condition may have filled, and consolidating, computes just that, or fails the assertion exactly when a count is too large. |
| `SymbolBranches.InheritBranch` | src/libponyc/ast/symtab.c:209-255 | Inheriting from one branch, in any order of its hash map, updates each name as a function of its two entries. |
| `SymbolBranches.ConsolidateBranches` | src/libponyc/ast/ast.c:1300-1332 | Settling the counts, in any order of the hash map, or failing the assertion on them. |
| `SymbolBranches.Get` | src/libponyc/ast/ast.c:1172-1198 | The nearest definition and the first status on the way to it. |
| `SymbolTable.Symtab.Add` | src/libponyc/ast/symtab.c:83-113 | Succeeds exactly when neither the name nor its folded form is there; keeps the table free of names that differ only in case; a failing add changes nothing. |
| `SymbolTable.FailedAddExact` | src/libponyc/ast/symtab.c:83-113 | Over all tables, a failing add leaves an entry behind exactly when the name is there and its folded form is not. |
| `SymbolTable.FailedAddLeavesEntry` | src/libponyc/ast/symtab.c:88-107 | Such a table: a status recorded for a name of an outer scope. |
| `SymbolTable.AddKeepsProper` | src/libponyc/ast/symtab.c:83-113 | No two declared names share a folded form, and every folded form in the table belongs to a declared name. |
| `SymbolTable.FindCaseExact` | src/libponyc/ast/symtab.c:138-164 | In such a table the search that ignores case finds a node exactly when a name with the same folded form is declared. |
| `SymbolNames.FoldIdempotent` | src/libponyc/ast/symtab.c:36-51 | Folding twice is folding once, so that search ends. |
| `SymbolNames.NameWithoutCase` | src/libponyc/ast/symtab.c:36-51 | Type names are folded to capitals, other names to small letters. |
| `SymbolTable.Symtab.CanMergePublic` | src/libponyc/ast/symtab.c:257-274 | Says yes exactly when every public name of the source can be added. |
| `SymbolTable.Symtab.MergePublic` | src/libponyc/ast/symtab.c:276-293 | Succeeds exactly when the test says yes, in any order of the hash map, and then the table is the old one with exactly the public symbols and their folded forms. |
| `AstLinks.Relink` | src/libponyc/ast/ast.c:1442-1673 | Any edit that gives one node a new list of children, taking in loose nodes and letting go of others as orphans, keeps the forest well formed: chains, parents, orphan flags, fields. |
| `AstLinks.OneList` | src/libponyc/ast/ast.c:1442-1673 | In a well-formed forest every node is among the children of at most one node. |
| `AstForest.Forest.Pop` | src/libponyc/ast/ast.c:1489-1506 | Takes off the first child, which becomes an orphan. |
| `AstForest.Forest.Add` | src/libponyc/ast/ast.c:1442-1462 | Prepends. |
| `AstForest.Forest.Append` | src/libponyc/ast/ast.c:1508-1539 | Walks to the end and appends. |
| `AstForest.Forest.AddSibling` | src/libponyc/ast/ast.c:1464-1487 | Inserts after a given child. |
| `AstForest.Forest.Swap` | src/libponyc/ast/ast.c:1592-1631 | Replaces a child in place; the old one becomes an orphan. |
| `AstForest.Forest.Reorder` | src/libponyc/ast/ast.c:1652-1673 | Permutes the children as told and moves no other node. |
| `AstForest.Forest.Extract` | src/libponyc/ast/ast.c:2032-2065 | Takes off the wanted children in one walk and keeps the others in order. |
| `AstFields.FieldsIndependent` | src/libponyc/ast/ast.c:824-959 | Over any run of setting and clearing types and annotations, each getter returns what its own setter stored last. |
| `AstFields.SetType` | src/libponyc/ast/ast.c:841-876 | Sets the type, behind the annotation if there is one, and keeps the annotation. |
| `AstFields.SetAnnotation` | src/libponyc/ast/ast.c:899-945 | Sets or clears the annotation and hands the type over. |
| `AstCopy.Dup` | src/libponyc/ast/ast.c:353-384 | A copy of a tree is new throughout, stands for the same tree with its annotations and types, and changes no old node. |
| `AstCopy.AstAdd` | src/libponyc/ast/ast.c:1442-1462 | Prepends a node, or a copy of it that stands for the same tree if it has a parent already. |
| `AstCopy.AstAppend` | src/libponyc/ast/ast.c:1508-1539 | Appends a node, or such a copy. |
| `AstCopy.AstAddSibling` | src/libponyc/ast/ast.c:1464-1487 | Inserts a node, or such a copy, after a child. |
| `AstCopy.AstSwap` | src/libponyc/ast/ast.c:1592-1631 | Puts a node, or such a copy, in the place of a child. |
| `ParserBuild.BuildAll` | src/libponyc/ast/parserapi.c:106-149 | Under any mix of adding, splicing flatten nodes nested to any depth, putting a node on top and reordering, the cached pointer is null or the true last child and the tree is the pure fold of the steps. |
| `ParserBuild.RuleState.DefaultBuilder` | src/libponyc/ast/parserapi.c:106-137 | Appends a node, or for a flatten node, in order, everything that is in it and in flatten nodes inside it, through the cached pointer; the flatten nodes are freed and nothing else is touched. |
| `FlatTrees.Disjoint` | src/libponyc/ast/parserapi.c:113-124 | Two nodes that are both roots have no node of their trees in common, so what is spliced from one is not in the other. |
| `FlatTrees.SpreadStep` | src/libponyc/ast/parserapi.c:113-124 | Taking off the first child of a flatten node and building with it is one step of taking them all. |
| `ParserBuild.RuleState.InfixBuilder` | src/libponyc/ast/parserapi.c:140-149 | Puts the tree so far under a new node and forgets the last child. |
| `ParserBuild.RuleState.AddAst` | src/libponyc/ast/parserapi.c:202-230 | The first node is the tree of the rule; later ones are added to it. |
| `ParserBuild.RuleState.ReorderChildren` | src/libponyc/ast/parserapi.h:491-500 | Reorders and forgets the last child. |
| `ParserBuild.RawSeq` | src/libponyc/ast/parser.c:1167-1197 | The children of a sequence are what the first statement and the items read stand for, in order; a jump can only be the last of them; and items are read until none is left or a jump is. |
| `TraitBitmap.MakeBitmap` | src/libponyc/codegen/gendesc.c:132-190 | For every set of type ids within the bitmap, in both layouts, the generated word-and-mask test is nonzero for exactly the ids of the set. |
| `TraitBitmap.IsTraitBit` | src/libponyc/codegen/gendesc.c:621-657 | The generated test reads the bit of the id in the word of the id. |

## Left out

- Compilation of try, then-clauses, disposing blocks, return, error, match, recover and calls: only sequences, conditionals, loops, break and continue are lowered.
- Values in the lowering are untyped, so casts at joins are the identity; debug locations, branch weights, lifetimes, block placement and error returns of the generator are not modelled.
- LoweringCorrect.LoweringIsCorrect: for bodies in which no condition of a loop breaks or continues the loop outside; others may still mean what their code does, if control never gets to such a jump, and LoweringCorrect.LoweringIsExact says what their code does.
- References without a name, which the simplifier passes over.
- `bnf_print` and `bnf_mark_used_rules`: they print, or say what is printed.
- BnfAntlr.AvoidingKeepsLanguage: asks that repetitions have one child, as the parser macros build them, and that the names of the new rules are new.
- BnfAntlr.Avoider.Avoid: returns the rewritten tree; nodes are not objects.
- BnfSimplifier.GrammarTree.Simplify: asks for a weight under which inlining is acyclic; without one the outer loop need not end.
- BnfSimplifier.GrammarTree.Pass: asks that no rule marked for inlining refers to itself, which is not kept from one pass to the next: of `a : "x" b` and `b : "y" a`, both inlined, the first comes to refer to itself, and the next pass inlines it into itself.
- BnfSimplifier.GrammarTree.SimplifyNode: as for the pass; BnfSimplifier.InlineExact says when a write differs from what it should be.
- BnfSimplifier.GrammarTree.SimplifyChildren: as for the pass.
- BnfClean.SimplifyClean: asks for a weight, as BnfSimplifier.GrammarTree.Simplify does.
- BnfSimplifier.SelfInlineChangesLanguage: one grammar; which self-inlined rules keep their language is not characterised.
- The messages of the tree checker, and how often it prints one.
- The tables of symbols, of their forms for a new line and of keywords are parameters of the lexer.
- Lexer.Lexer.ReadReal: the value of a real token is kept as its significand, digit count and exponent; the product with a power of ten is library floating point.
- Lexer.Lexer.LexInteger: digit counts do not wrap at 2^32, which a literal would need four billion digits for.
- LexPrint.PrintInteger: numbers of one word are printed by the C library, which is taken to write the decimal form.
- Characters above 127 are in no class of characters, and characters stand for bytes.
- `symtab_check_all_defined`: one scan.
- SymbolBranches.OrderIrrelevant: branches give variables of enclosing scopes no other status than defined, undefined and the two kinds of consumed, the ones that name resolution sets.
- AstFields.SetType: takes a node without a parent, or null; an attached one is copied with its following siblings in the source.
- AstFields.SetAnnotation: takes a node without a parent, or null, as for types.
- AstFields.FieldsIndependent: the nodes stored have no parent, as for AstFields.SetType.
- AstCopy.AstSwap: of a child, as for AstForest.Forest.Swap.
- AstForest.Forest.Swap: of a child; swapping the type of a node is not modelled.
- AstForest.Forest.AddSibling: the older sibling is one of the children of its parent, which the source only asserts to exist.
- `ast_free`, `ast_remove`, `ast_replace`, frozen nodes, symbol tables and data of nodes; scratch space for reordering is a local sequence.
- ParserBuild.RuleState.AddAst: the deferred first token, annotations of the next node, restart points and error recovery are left out.
- ParserBuild.RawSeq: the statements that the sub-rules would find are given as a list.
- `infix_reverse_builder`, which no grammar rule uses.
- The rest of the compiler: names, packages, types, reachability, code generation, linking.
