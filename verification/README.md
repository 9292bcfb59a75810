# Layla shell: a verified model of its core

This project models the parts of the shell where many steps have to fit together, and proves
what each of them is for. It has five parts.

**Arithmetic expansion** (`ArithOps`, `ArithLaws`, `ArithMachine`, `ArithExpr`, `ArithShape`,
`ArithTree`, `ArithGrammar`, `ArithWriting`, `ArithShortCircuit`, `ArithRuns`, `ArithEvaluator`,
`Numerals`).
`$((...))` is evaluated by a shunting-yard machine with an operator stack and an operand stack of
64 entries each. `ArithEvaluator` is that machine with its arrays, counters and error flag; it is
proved equal to a machine on values, and that machine is proved equal to post-order evaluation of
expression trees: value, final variables, failures and the order in which operators are applied.
`ArithGrammar` compares the operator table with the grammar of ISO C, level by level, and
`ArithShortCircuit` that evaluation with the one of ISO C. Further results hold of every token
sequence, well formed or not. Numbers are 64-bit two's complement. `Numerals` reads constants in
bases 2 to 64.

**Quoting, field splitting and quote removal** (`Quoting`, `FieldSplitting`, `FieldLayout`,
`QuoteRemoval`, `WordPasses`, `VariableWords`, `QuotedWords`). An expanded value is escaped, the
word is split, and the quotes are taken away again. Each pass is a method that works on a buffer as
the shell does; together they are compared with field splitting of the raw value (XCU section
2.6.5), and that with a description of text as fields and separators (`FieldLayout`).

**Loops** (`Commands`, `LoopFlags`, `LoopFlow`, `LoopLeaving`, `LoopShell`). `break` and
`continue` speak to the loops through three globals. `LoopShell` has the executors as methods that
update the globals, `LoopFlags` the same as functions, and `LoopFlow` a structured semantics in
which `break n` and `continue n` are signals (XCU section 2.14), with the exit statuses of the
shell or, if strict, those of XCU section 2.9.4; the first two refine the third. `LoopLeaving`
says what the two built-in utilities do to any nest of word-list loops.

**Jobs** (`Processes`, `Waiting`, `WaitLoop`, `JobTable`, `JobRuns`, `JobStore`). The SIGCHLD
handler notes reports on the dead list, `wait_on_child` takes them off. `Waiting` is a machine in
which the handlers run between any two steps of the waiter, which go from `rip_dead` over the look
at `signal_received` to `sigsuspend` and back; `WaitLoop` is the code, proved to be a run of it
that handles the signals it is given. `Processes` counts the terminated members of a job.
`JobTable` and `JobStore` are the jobs table and the choice of the current and the previous job, and
`JobRuns` is any sequence of what happens to that table.

**Braces and patterns** (`ClosingBrace`, `Ranges`, `BraceList`, `BraceSplit`, `StringLists`,
`BraceExpansion`, `BraceWords`, `Patterns`, `PatternMatching`). The search for a closing brace is
compared with a grammar, brace expansion in place with a recursive definition, and the regular
expression made of a shell pattern with the meaning of the pattern. `Basics` has what the modules
share.

Where the code does not do what the standard asks for, the code is what is modelled. The exact
condition under which it does is then proved, and an input on which it does not is shown:

- a comma before a unary operator: `ArithTree.ExpandTree`; `ArithTree.CommaBeforeUnary`
- `&&` and `||` evaluate both sides: `ArithShortCircuit.LogicalExact`, exact at each operator whose
  operands are evaluated as in C; `ArithShortCircuit.BothSidesRun`
- a command substitution that is blank or has escaped IFS characters: `WordPasses.SubstitutionExact`;
  `WordPasses.BlankSubstitution`, `WordPasses.DollarSubstitution`
- an unquoted variable with single quotes: `VariableWords.VariableExact`;
  `WordPasses.VariableLosesSingleQuotes`
- a `while` or `until` loop left early: `LoopFlow.ProgramRefines`; `LoopLeaving.FirstPassBreak`
- the exit status of an `if` without `else` and of `while` and `until` loops:
  `LoopFlow.ProgramRefines`, exact as long as nothing is decided by such a status;
  `LoopLeaving.NoPassFails`
- a `break` or `continue` beyond the nesting depth: `LoopLeaving.BreakLeaves`;
  `LoopLeaving.BreakTooDeep`, `LoopLeaving.ContinueTooDeep`, `LoopLeaving.LeftOverBreak`
- a report that comes between an unsuccessful `rip_dead` and `sigsuspend`, which does not wake the
  shell up: `Waiting.ListedSince`, `Waiting.NeverStuck`; `Waiting.MissedWakeUp`
- SIGINT between the look at `signal_received` and `sigsuspend`: `Waiting.SigintUnheeded`;
  `Waiting.MissedSigint`
- a process that terminates while it is being handed over as stopped: `Waiting.HandedLoses`;
  `Waiting.StopHidesDeath`
- two stopped jobs of which only one is remembered: `JobTable.ResetCurLive`;
  `JobTable.SecondStoppedMissed`, reached as `JobRuns.SecondStoppedReached` says
- dots, escaped stars and escaped question marks in a pattern, and stars behind an escaped closing
  parenthesis: `Patterns.MeaningKept`; `Patterns.DotTakesAny`, `Patterns.EscapedStar`
- prefixes and suffixes that are never tried: `PatternMatching.RemovalExact`;
  `PatternMatching.StarLeavesOne`

Where comments and code differ the code is followed: the comma is an operator of the evaluator,
and get_ndigit goes up to base 64.

Types of tokens, commands, statuses and table entries are datatypes; what the shell updates in
place is a class or an array. `Outcome`, `Run`, `Rest`, `Listed` and `Option` carry the error
returns. `fuel` bounds the passes of `while` and `until` loops, which need not end.

## Model

| member | source | states |
|---|---|---|
| ArithOps.ToLong | src/shunt.c:157-205 | every result is brought into the range of `long` |
| ArithOps.ToLongCongruent | src/shunt.c:157-205 | wrapping changes a value by a multiple of 2^64 only, and not at all inside the range |
| ArithOps.DivModLaw | src/shunt.c:292-316 | the quotient truncates toward zero, and quotient and remainder make up the dividend, with the remainder smaller than the divisor and signed like the dividend |
| ArithOps.BitwisePointwise | src/shunt.c:247-260 | bit i of `&`, `\|` and `^` is that function of the bits i of both operands, negative ones included |
| ArithLaws.AddSubUndo | src/shunt.c:182-190 | addition and subtraction undo each other, overflow or not |
| ArithLaws.PowerLaw | src/shunt.c:282-290 | the power of a sum of exponents is the product of the powers; a negative exponent gives 0 |
| ArithLaws.ShiftLaw | src/shunt.c:197-205 | a right shift is the floor of the division by the power of two, for negative numbers too, and undoes a left shift that did not overflow |
| ArithLaws.CompareLaw | src/shunt.c:212-240 | exactly one of `<`, `==` and `>` holds, the other comparisons are their negations, and the order agrees with the sign of the difference |
| ArithLaws.StepLaw | src/shunt.c:438-493 | prefix and postfix forms leave the same variables, one yields the new value and the other the old, and the opposite step brings the old value back |
| ArithLaws.BitwiseWidth | src/shunt.c:247-260 | `&`, `\|` and `^` of numbers of some width have that width |
| ArithLaws.RingMeans | src/shunt.c:157-190 | `+`, `-`, `*` and unary `-` are those of the integers, wrapped to a `long` |
| ArithLaws.DivisionMeans | src/shunt.c:292-316 | `/` and `%` fail on 0, and otherwise are quotient and remainder with a = b q + r, the remainder smaller than the divisor and signed like the dividend; only the smallest `long` divided by -1 is wrapped |
| ArithLaws.BitwiseMeans | src/shunt.c:247-260 | bit by bit `&` is and, `\|` is or, `^` is exclusive or and `~` is not |
| ArithLaws.OthersMean | src/shunt.c:162-275 | `<<` multiplies by the power of two, wrapped; `!`, `&&` and `\|\|` look at zero only; unary `+` changes nothing |
| ArithLaws.AssignMeans | src/shunt.c:318-432 | `=` and the compound assignments store what they yield in the variable and nothing else anywhere; a division by zero leaves 0 in it and fails |
| ArithLaws.NoAssignment | src/shunt.c:318-493 | a number or a read-only variable cannot be assigned to, incremented or decremented |
| ArithLaws.ExpandLong | src/shunt.c:1329-1667 | whatever the tokens, the value and all variables afterwards are `long`s when constants and variables are |
| ArithShape.Shape | src/shunt.c:757-848 | whatever the values, reading a well-formed tree leaves its pending operators on top of what was there, and how high the stacks get is a function of the tree alone |
| ArithTree.Agreement | src/shunt.c:757-848 | in any state that expects an operand, reading a tree and firing its operators is evaluating it in post-order, exactly when the stacks have room for it |
| ArithTree.ExpandTree | src/shunt.c:1329-1667 | for every tree written with the parentheses C requires: same value, same final variables, same failure as post-order evaluation and operators applied in reverse Polish order, if and only if each comma is followed by an operand token and neither stack needs more than 64 entries; otherwise the expansion fails |
| ArithTree.CommaBeforeUnary | src/shunt.c:1409-1466 | an expression with a comma before a prefix operator fails, whatever stands on both sides; `1, -2` is one, and has the value -2 |
| ArithGrammar.WellFormedIsDerived | src/shunt.c:546-594 | the trees that need no more parentheses by the operator table are exactly those that the grammar of ISO C section 6.5 derives, one nonterminal for each level, tightest to loosest, with `**` between the multiplicative and the unary level, and a logical-OR expression on the left of an assignment |
| ArithGrammar.ThreeOperands | src/shunt.c:757-848 | of `a o1 b o2 c`, for any operands and any two binary operators, the grammar derives exactly one grouping, and the expansion is the value of that one |
| ArithGrammar.SumOfProduct | src/shunt.c:757-848 | `a + b * c` adds a to the product |
| ArithGrammar.DifferenceFirst | src/shunt.c:757-848 | `a - b - c` takes c from the difference |
| ArithGrammar.TwoOperands | src/shunt.c:1329-1667 | `a op b` is what op computes of a and b in this order, or fails with a division by zero |
| ArithGrammar.OneOperand | src/shunt.c:157-176 | `-a` is the negation wrapped, `+a` is a, `!a` is 1 for 0 and 0 otherwise, `~a` is -a - 1 |
| ArithGrammar.NothingOrTwo | src/shunt.c:1619-1667 | no tokens are blank; `()` and two operands next to each other fail |
| ArithWriting.ParenthesizedShape | src/shunt.c:546-594 | any tree can be written: the parentheses that precedence and associativity require are enough, and none is added where none is needed |
| ArithWriting.ParenthesizedKeeps | src/shunt.c:546-594 | adding them changes neither meaning nor order of evaluation |
| ArithWriting.ExpandAnyTree | src/shunt.c:1329-1667 | every comma-free tree, written with those parentheses, expands to what it evaluates to, as long as the stacks have room |
| ArithWriting.LeftOnlyNeverOverflows | src/shunt.c:546-594 | with left-associative operators and parentheses at most four deep an expression of any length fits the 64-entry stacks |
| ArithShortCircuit.OrderlyAgrees | src/shunt.c:267-275 | post-order evaluation and the evaluation of ISO C, which skips right operands of `&&` and `\|\|`, agree on value, variables and failure wherever the order makes no difference at any such operator |
| ArithShortCircuit.LogicalExact | src/shunt.c:267-275 | and at an operator whose operands are evaluated as in C only there: when the left operand decides, the right one has neither an effect nor a failure, and otherwise it does not turn the left one to deciding |
| ArithShortCircuit.BothSidesRun | src/shunt.c:267-275 | `0 && (x = 1)` sets x |
| ArithShortCircuit.ExpandAsC | src/shunt.c:1329-1667 | every supported tree whose right operands of `&&` and `\|\|` neither store nor divide expands to what C makes of it |
| ArithRuns.RunReads | src/shunt.c:757-848 | on every run over any tokens: precedence never decreases up the operator stack between parentheses, equal neighbours occur only at right-associative levels, operands balance operators, and each operator read is either applied or pending, once |
| ArithRuns.Conservation | src/shunt.c:1619-1667 | any token sequence that yields a value: operands pushed are binary operators applied plus one (plus commas discarded), each operator read was applied exactly once, and the parentheses match |
| ArithRuns.SortedHeight | src/shunt.c:666-675 | a sorted stretch of left-associative operators cannot be longer than there are levels |
| ArithRuns.LeftGroupingHeight | src/shunt.c:757-848 | no token sequence of left-grouping operators gets the operator stack above 11 entries and 12 for each parenthesis it leaves open, 59 for four |
| ArithEvaluator.Evaluator.PushOp | src/shunt.c:666-675 | pushes, or sets the error flag on a full stack and leaves the stack alone |
| ArithEvaluator.Evaluator.PopOp | src/shunt.c:681-690 | pops the last operator, or sets the error flag on an empty stack |
| ArithEvaluator.Evaluator.PushNum | src/shunt.c:696-724 | the same for operands, numbers and variables alike |
| ArithEvaluator.Evaluator.PopNum | src/shunt.c:730-739 | pops the last operand, or sets the error flag on an empty stack |
| ArithEvaluator.Evaluator.FireTop | src/shunt.c:757-848 | one operator applied in place is one step of the machine on values |
| ArithEvaluator.Evaluator.ShuntOp | src/shunt.c:757-848 | shunt_op is the machine's shunt: fire what binds tighter, then push, match or discard |
| ArithEvaluator.Evaluator.TakeTok | src/shunt.c:1409-1617 | one turn of the main loop is one token of the machine |
| ArithEvaluator.Evaluator.ArithmExpand | src/shunt.c:1329-1667 | reply and final variables are those of the machine on values, so that all theorems above hold of the arrays |
| Numerals.DigitInverse | src/shunt.c:860-945 | get_ndigit and the digit alphabet 0-9 a-z A-Z @ _ are inverse to each other below each base, letters of either case in bases up to 36 |
| Numerals.ReadDigits | src/shunt.c:1148-1209 | the digit loop gives the value, its end and whether it ends at a character that is no digit |
| Numerals.GetNum | src/shunt.c:1097-1212 | get_num is the parse of the text: value and character count, or an error |
| Numerals.BasedRoundTrip | src/shunt.c:1148-1209 | every natural number in `long`, printed as base#digits for any base 2 to 64, reads back with the exact character count, exactly when white space or the end follows |
| Numerals.PlainRoundTrip | src/shunt.c:1097-1146 | the same for decimal constants and for 0x, 0X, 0b, 0B and 0 prefixes |
| Numerals.ZeroAlone | src/shunt.c:1127-1142 | a lone 0 is accepted exactly before the end, white space and nine operator characters |
| Numerals.AlphabetIs | src/shunt.c:860-945 | the alphabet written out |
| Numerals.TwoDigits | src/shunt.c:1148-1209 | the first of two digits counts for the base |
| Numerals.WrongDigit | src/shunt.c:1148-1209 | a constant followed by a digit that its base does not have is refused |
| Numerals.BadBase | src/shunt.c:1175-1209 | so is a base below 2 or above 64 |
| Quoting.QuotedLength | src/strings.c:164-206 | the counting pass gives the length of the escaped text |
| Quoting.CopyEscaped | src/strings.c:219-254 | the copying pass writes the escaped text and nothing else |
| Quoting.QuoteVal | src/strings.c:159-262 | the buffer is filled exactly: allocated length is written length, and the contents are the quoted value |
| Quoting.EscapeOne | src/strings.c:219-254 | which characters get a backslash: `\`, `$`, back and double quotes, and single quotes on request |
| FieldSplitting.GetIfsSpacesAndDelims | src/wordexp.c:3548-3580 | splits IFS into its white space and its other characters |
| FieldSplitting.SkipIfsWhitespace | src/wordexp.c:3418-3447 | passes exactly the leading IFS white space |
| FieldSplitting.SkipIfsDelim | src/wordexp.c:3496-3513 | passes one delimiter: IFS white space around at most one other IFS character |
| FieldSplitting.Turn | src/wordexp.c:3653-3784 | one turn of the loop makes at most one field and leaves the fields still to be made unchanged |
| FieldSplitting.MakeFields | src/wordexp.c:3639-3799 | the loop makes the fields of the quoted text, in order |
| FieldSplitting.SplitWord | src/wordexp.c:3591-3799 | field_split as a whole, with unset and empty IFS |
| FieldLayout.FieldsBack | src/wordexp.c:3418-3513 | fields without IFS characters, joined by separators of section 2.6.5 (IFS white space, or one other IFS character with IFS white space on both sides), empty ones only between or before separators of the second kind, with optional IFS white space in front and an optional separator at the end: splitting gives back exactly these fields |
| FieldLayout.EveryText | src/wordexp.c:3418-3513 | every text is made of fields and separators in this way |
| FieldLayout.QuotationWhole | src/wordexp.c:3653-3784 | quoted text is taken whole, IFS characters and all |
| FieldLayout.OpenQuotation | src/wordexp.c:3653-3784 | a quotation that is not closed makes no field, and neither does a backslash at the end |
| FieldLayout.UnsetIfs | src/wordexp.c:3591-3640 | an unset IFS is space, tab and newline; with an empty one nothing is split |
| QuoteRemoval.DeleteCharAt | src/wordexp.c:219-227 | removes one character of a terminated string in place and moves the rest down |
| QuoteRemoval.Turn | src/wordexp.c:3264-3364 | one turn of remove_quotes keeps what the whole word will give |
| QuoteRemoval.RemoveQuotes | src/wordexp.c:3246-3364 | in place, the word becomes the quote-removed word, and the flags are those that belong to it |
| QuoteRemoval.Quotations | src/wordexp.c:3264-3364 | single, double and back quotes are taken away around any text that means nothing within them, with the flags each sets |
| QuoteRemoval.Backslashes | src/wordexp.c:3264-3364 | within double quotes a backslash quotes five characters and stays before any other, without quotes it quotes every character |
| WordPasses.UnquotedSplit | src/wordexp.c:770-781 | for every value and every IFS without a backslash the three passes give the section 2.6.5 fields of the raw value, in order and unaltered, where only the IFS characters that quote_val does not escape split; a blank value gives one empty field |
| WordPasses.ConcatSplit | src/wordexp.c:3591-3799 | splitting loses and reorders nothing but IFS characters |
| WordPasses.EscapedExact | src/wordexp.c:770-781 | whenever all quotes are escaped the passes commute with splitting the raw value if and only if it is not blank and has no IFS character that quote_val escapes |
| WordPasses.SubstitutionExact | src/wordexp.c:770-781 | so command substitution text does, single quotes included |
| WordPasses.BlankSubstitution | src/wordexp.c:770-781 | a substitution of one space gives one empty field where section 2.6.5 gives none |
| WordPasses.EscapedDelimiter | src/wordexp.c:770-781 | an IFS of one character that quote_val escapes never splits a value that has it, where section 2.6.5 asks for a split |
| WordPasses.DollarSubstitution | src/wordexp.c:770-781 | `a$b` is not split at an IFS of `$` |
| WordPasses.VariableLosesSingleQuotes | src/wordexp.c:770-781 | an unquoted variable with value x'y comes out as xy |
| VariableWords.VariableExact | src/wordexp.c:770-781 | for every value and every IFS that is not empty and has no single quote and no backslash, an unquoted variable comes out as section 2.6.5 asks for if and only if the value has no single quote, is not blank and has no IFS character that quote_val escapes |
| QuotedWords.QuotedSurvives | src/strings.c:159-260 | a double-quoted expansion is one field equal to itself, or not split at all, the latter exactly when its value has an odd number of single quotes; quote removal then yields exactly the value |
| LoopFlags.CmdBalanced | src/backend/loops.c:509-580 | every command on every run leaves cur_loop_level as it was, whatever is pending or fails |
| LoopFlow.RefineCmd | src/backend/loops.c:60-120 | a command with flags and level does what its signal says: pending break and continue counts are the signal's, and both flags are 0 when nothing is pending; with the statuses of the shell for every bounded command, with those of section 2.9.4 as long as no decision depends on one that the shell has otherwise |
| LoopFlow.ProgramRefines | src/backend/backend.c:1055-1092 | a program that ends normally by its signals does so with the flags, same commands, same status, flags and level 0, if and only if no while or until loop is left early; when one is the shell reports a failure, and otherwise it fails exactly where the signals do; with the statuses that section 2.9.4 asks for the same holds while no `&&`, `\|\|` or test is decided by a status the shell has otherwise, and the final status is the same if and only if it is none of these |
| LoopFlow.WordLoopsRefine | src/backend/loops.c:537-575 | with word-list loops every program ends as the signals say: same commands run, same status, flags and level 0; and with `else` in each `if` the status is always the one section 2.9.4 asks for |
| LoopLeaving.FlagsLeave | src/backend/loops.c:556-575 | flags that ask for more loops than stand around a body take all of these out of their first pass and lose one for each, in any nest of word-list loops |
| LoopLeaving.BreakLeaves | src/backend/loops.c:60-90 | `break n` in any nest of at most n word-list loops ends all of them, runs nothing behind it, and leaves n minus their number in req_break, so that the flags are 0 again if and only if n is their number |
| LoopLeaving.BreakLeavesExactly | src/backend/loops.c:60-90 | `break n` in n nested word-list loops ends exactly those, with flags as with signals |
| LoopLeaving.BreakTooDeep | src/backend/loops.c:60-90 | a break count above the nesting depth is not cut down: outside all loops the rest of it stays in req_break |
| LoopLeaving.LeftOverBreak | src/backend/backend.c:1055-1092 | the next loop pays for it: its first pass ends behind its first command |
| LoopLeaving.LeftOverWaits | src/backend/backend.c:1055-1092 | outside all loops a list does not stop for it |
| LoopLeaving.ContinueTooDeep | src/backend/loops.c:96-126 | the rest of a continue count above the nesting depth stays in req_continue |
| LoopLeaving.ContinueResumes | src/backend/loops.c:96-126 | `continue n` ends the n - 1 inner loops and resumes the outermost for each of its words, with flags as with signals |
| LoopLeaving.FirstPassBreak | src/backend/loops.c:809-839 | any while or until loop that breaks in its first pass makes the list after it, whatever it is, be skipped, where section 2.14 goes on with it |
| LoopLeaving.LeftInFirstPass | src/backend/loops.c:809-839 | the flags after a while or until loop left in its first pass by `break n` or by `continue n` for an outer loop are one less, and the loop reports failure |
| LoopLeaving.NoPassFails | src/backend/loops.c:783-866 | a while loop that makes no pass leaves the status of its test, so that what follows it by `&&` does not run, where section 2.9.4 asks for 0 |
| LoopShell.Shell.BreakBuiltin | src/backend/loops.c:60-90 | the globals after break |
| LoopShell.Shell.ContinueBuiltin | src/backend/loops.c:96-126 | the globals after continue |
| LoopShell.Shell.DoCompoundList | src/backend/backend.c:1055-1092 | the list executor returns and leaves the globals as the flag machine says, stopping at a pending break or continue |
| LoopShell.Shell.DoAndOr | src/backend/backend.c:573-750 | the same for and-or lists |
| LoopShell.Shell.DoIfClause | src/backend/conditionals.c:301-391 | the same for if clauses |
| LoopShell.Shell.AfterPass | src/backend/loops.c:556-575 | what a loop makes of the flags after a pass |
| LoopShell.Shell.DoForLoop | src/backend/loops.c:454-585 | the same for word-list loops |
| LoopShell.Shell.DoWhileLoop | src/backend/loops.c:783-866 | the same for while loops, and for until loops with the test turned round |
| Processes.HistoryValid | src/jobs.c:89-199 | any additions and reports keep the used pids a distinct non-zero prefix of length proc_count and child_exits the number of exit bits |
| Processes.HistoryMembers | src/jobs.c:89-125 | a job consists of the first 32 different processes added to it, in order, and its group is the first of them unless it had one |
| Processes.HistoryFaithful | src/jobs.c:157-199 | the status kept of each process is the last one reported of it |
| Processes.AllTerminated | src/jobs.c:157-199 | child_exits reaches proc_count, the number of those processes, if and only if the last report of each of them since it was added was a termination |
| Processes.ReportUnnotified | src/jobs.c:157-199 | a report clears the notified flag, an addition leaves it |
| Processes.JobCell.AddPidToJob | src/jobs.c:89-125 | the array is updated as the addition says; duplicates and a 33rd process are ignored |
| Processes.JobCell.SetPidExitStatus | src/jobs.c:157-199 | code, bit map and count are updated as the report says |
| Waiting.NormalReturn | src/backend/backend.c:158-248 | over every interleaving of the handlers with the steps of the waiter: on the normal return every process of the job has its exit bit set, and the value is the status of the termination of the process asked for |
| Waiting.TakeShrinks | src/backend/backend.c:179-234 | taking a termination takes exactly that process out of the set still waited on, taking anything else leaves the set as it was |
| Waiting.EachDiesOnce | src/backend/backend.c:215-234 | a wait that returns normally has taken one termination for each process that had not terminated, and none for the others |
| Waiting.NeverFull | src/jobs.c:1155-1175 | reports of fewer than 32 different processes never fill the dead list, however many reports there are, on every interleaving |
| Waiting.NotLost | src/jobs.c:1155-1175 | with reports of fewer than 32 different processes a delivered termination is never lost: its bit is set, or it is on the list or in the waiter's hands; except when its process is handed over as stopped |
| Waiting.HandedLoses | src/backend/backend.c:188-210 | a process handed over as stopped has lost its termination if and only if that was reported after the rip_dead that found it stopped |
| Waiting.StopHidesDeath | src/backend/backend.c:188-210 | it happens: stopped, found, terminated, handed over, and the list says stopped |
| Waiting.HandedWhen | src/backend/backend.c:188-210 | the wait hands over exactly a stopped or killed process, and only under job control |
| Waiting.ListedSince | src/backend/backend.c:165-177 | from one rip_dead to the next the list has of the process waited for exactly what has been reported in between; so the shell sleeps in sigsuspend with a report of it on the list if and only if one came after an unsuccessful rip_dead and before sigsuspend |
| Waiting.AsleepStays | src/backend/backend.c:176 | only a signal ends sigsuspend, whatever is on the list |
| Waiting.MissedWakeUp | src/backend/backend.c:165-177 | it happens: the process asked for terminates right after an unsuccessful rip_dead, and the shell goes to sleep |
| Waiting.SigintUnheeded | src/backend/backend.c:167-176 | the shell sleeps with SIGINT as the last signal if and only if it came after the look at signal_received and before sigsuspend |
| Waiting.MissedSigint | src/backend/backend.c:167-176 | it happens |
| Waiting.NeverStuck | src/backend/backend.c:165-248 | once all terminations have been delivered, in any order and among any other reports, the waiter returns without a further signal, within two steps for each process still waited on and one more, if and only if it is not in the body of the loop around rip_dead; and there it is only when a report of the process waited for has come since the last rip_dead |
| WaitLoop.DeadList.NoticeTermination | src/jobs.c:1155-1175 | updates the entry of a known process, appends another while there is room |
| WaitLoop.DeadList.RipDead | src/jobs.c:1248-1282 | returns and removes the entry of the process and keeps the others in order |
| WaitLoop.WaitOnChild | src/backend/backend.c:138-248 | every execution with signals at any of the places between the operations on the dead list, with any number of reports of fewer than 32 different processes, is a run of the machine and its reply the machine's; the reports and SIGINTs of the run are, in order, all those of the batches that came up to its end, and of the whole script if it ends blocked; that is exactly when the machine sleeps, and the list then has exactly the reports of the process waited for that came since rip_dead |
| JobTable.LastWithHighest | src/jobs.c:299-323 | last_job_with_status finds the highest-numbered job that is older and has the status |
| JobTable.SetCurLive | src/jobs.c:1348-1407 | after set_cur_job on a live job both numbers name live jobs however stale they were, and the previous job is another stopped one if and only if the former was or an older stopped job exists beside a stopped current one |
| JobTable.SetCurPrevious | src/jobs.c:1348-1407 | which job set_cur_job makes the previous one, in each case |
| JobTable.SetCurAbsent | src/jobs.c:1348-1407 | set_cur_job on a job that is not in the table, as wait_on_child may pass one (src/backend/backend.c:195), makes its number the current one all the same |
| JobTable.ResetCurLive | src/jobs.c:1414-1450 | after reset_cur_job both numbers are 0 or both are live; the current job is stopped if and only if a stopped job was within reach, and there is none if and only if no such running job exists either; the previous job is another stopped one if and only if, before the call, a second one was within reach |
| JobTable.ResetCurChoice | src/jobs.c:1414-1450 | which job reset_cur_job makes current: a stopped current or previous one, else the newest stopped, else the newest running |
| JobTable.SecondStoppedMissed | src/jobs.c:1348-1407 | with jobs 1 and 2 stopped and 1 current, job 1 becomes the previous job too, which the `jobs` utility of XCU chapter 4 does not allow |
| JobRuns.SecondStoppedReached | src/jobs.c:1348-1678 | three jobs that stop, job 1 and then job 3 made current, and job 3 removed lead to that table |
| JobRuns.AddedLast | src/jobs.c:1495-1545 | a new job goes to the end with a number one above the last and becomes current; a table of 255 takes none |
| JobTable.SweepWhole | src/jobs.c:347-364 | remove_dead_jobs is the stable filter, and what it makes of the current and previous numbers in closed form |
| JobTable.RemovedFollows | src/jobs.c:1606-1678 | a removal keeps the others in order, and makes the previous job current and none previous exactly when the current job goes |
| JobTable.KeptExactly | src/jobs.c:347-364 | the filter drops exactly the jobs that are notified and whose child_exits has reached proc_count |
| JobRuns.RunsNumbered | src/jobs.c:1495-1678 | over any sequence of additions, removals, sweeps, selections, resets and changes of status the live jobs stay a gap-free prefix with strictly increasing numbers, and a reset leaves both selections live or 0 |
| JobStore.JobsTable.GetJobByJobid | src/jobs.c:1322-1339 | finds the entry with the number, or null |
| JobStore.JobsTable.LastJobWithStatus | src/jobs.c:299-323 | the scan over the array is the selection on the live jobs |
| JobStore.JobsTable.SetCurJob | src/jobs.c:1348-1407 | both numbers are set as the selection says, for a job in the table or not, the table is untouched; a null job changes nothing |
| JobStore.JobsTable.ResetCurJob | src/jobs.c:1414-1450 | the same for the reset |
| JobStore.JobsTable.AddJob | src/jobs.c:1495-1545 | the array, total_jobs and both numbers after an addition, or null and no change when full |
| JobStore.JobsTable.RemoveJob | src/jobs.c:1606-1678 | the entry is gone, the ones behind it moved down by one, total_jobs is one less, and the numbers are what the removal makes of them |
| JobStore.JobsTable.RemoveDeadJobs | src/jobs.c:347-364 | the loop that steps back after a removal ends and has swept the table |
| ClosingBrace.FindClosingBrace | src/wordexp.c:459-665 | on text without double or back quotes, `<<` or comments, and, outside double quotes, without single quotes, and without `case` where there are parentheses, the recursive scan finds what Find says |
| ClosingBrace.FindIsBalanced | src/wordexp.c:459-665 | the answer is k > 0 if and only if the text up to k is one balanced group of the mixed `{ ( [` grammar with backslash escapes |
| ClosingBrace.FindNothing | src/wordexp.c:459-665 | the answer is 0 if and only if no beginning of the text is such a group; and at most one is |
| ClosingBrace.OneReading | src/wordexp.c:459-665 | a text is the text of at most one sequence of items |
| ClosingBrace.PairsFound | src/wordexp.c:459-665 | `{` is closed by `}`, `(` by `)` and `[` by `]` around any text without braces |
| ClosingBrace.PairsOnly | src/wordexp.c:459-665 | and by nothing else |
| Ranges.LengthExact | src/braceexp.c:543-598 | the length of a range is the number of values before the first that passes the end |
| Ranges.FillRange | src/braceexp.c:456-598 | counting and filling pass agree and give the values of the range |
| Ranges.ValuesExact | src/braceexp.c:456-598 | the length is the distance divided by the step plus one, a step of 0 counting as 1 and its sign not at all; consecutive values differ by the step, all lie between the ends, and one more would pass the end |
| Ranges.DecimalReadsBack | src/braceexp.c:531-540 | a printed number is one for is_num and reads back as itself |
| Ranges.AtolPlaces | src/braceexp.c:282-402 | atol reads digits in base ten |
| BraceList.GetRange | src/braceexp.c:282-402 | the two or three parts of a range and its error cases |
| BraceList.GetBraceList | src/braceexp.c:222-448 | get_brace_list as a whole: quotes and nested braces passed over, comma items, ranges, and a null list when there are no items |
| BraceList.FewerBraces | src/braceexp.c:107-137 | each pre+item+post has strictly fewer opening braces than the text it replaces |
| BraceSplit.CommaSplit | src/braceexp.c:222-282 | for any non-empty items joined by commas, with nested groups and with characters behind a backslash, and whatever follows, the closing brace is found behind them and exactly the items come back |
| StringLists.StringList.Add | src/braceexp.c:609-653 | an exact insertion at any place, with the array doubled when full |
| StringLists.StringList.Remove | src/braceexp.c:660-674 | an exact removal |
| BraceExpansion.SeekBrace | src/braceexp.c:58-112 | the scan finds the first expandable expression past quotes and substitutions |
| BraceExpansion.ExpandStep | src/braceexp.c:43-173 | the recursive definition: a word with an expandable brace stands for the words of its replacements in order, another for itself |
| BraceExpansion.ExpandDone | src/braceexp.c:43-173 | it ends, and no word that comes out has an expandable brace left |
| BraceExpansion.BraceExpand | src/braceexp.c:43-173 | the worklist spliced in place terminates with exactly the words of the recursive definition, in order, and is null if and only if nothing expands |
| BraceWords.FirstExpression | src/braceexp.c:88-150 | a word with a first expression behind plain characters stands for the words of prefix, item and suffix put together, item by item |
| BraceWords.CommaWord | src/braceexp.c:43-173 | `pre{a,b,...}post` stands for the words of `pre a post`, `pre b post` and so on, in order, for any items |
| BraceWords.CommaText | src/braceexp.c:43-173 | with plain items these words are all: as many as there are items, the i-th being pre, the i-th item and post |
| BraceWords.QuotedItem | src/braceexp.c:222-282 | a comma in a quotation separates no items |
| BraceWords.EmptyItem | src/braceexp.c:222-282 | an empty item is none, its comma goes to the next item |
| BraceWords.RangeItems | src/braceexp.c:282-402 | `{x..y}` and `{x..y..z}` hold exactly the values of the range in decimal |
| BraceWords.RangeWord | src/braceexp.c:43-173 | a word with a range stands for the words of its items, each in its place |
| BraceWords.NumberWords | src/braceexp.c:43-173 | `pre{x..y..z}post` is one word for each number from x towards y by the absolute value of z, by 1 for 0 or without z: pre, the number in decimal, post |
| BraceWords.LetterWords | src/braceexp.c:43-173 | the same for letters |
| BraceWords.NoRange | src/braceexp.c:282-402 | with bounds that are neither both letters nor both numbers, or a step that is no number, the word stands for itself |
| BraceWords.QuotedWhole | src/braceexp.c:60-74 | quoted text is never expanded |
| BraceWords.EscapedBrace | src/braceexp.c:88-112 | a brace behind a backslash opens nothing |
| BraceWords.DollarBrace | src/braceexp.c:75-87 | neither does one behind a dollar sign |
| Patterns.TranslateMeans | src/backend/pattern.c:119-292 | for ordinary characters, `?`, runs of `*`, single-quoted text and backslashes before special characters the expression accepts exactly the strings the pattern stands for by XCU section 2.13 |
| Patterns.EscapedOne | src/backend/pattern.c:165-215 | which nine characters of quoted text get a backslash |
| Patterns.MeaningKept | src/backend/pattern.c:119-292 | with everything XBD section 9.4 lets a backslash escape, and dots, the meaning is kept if and only if the pattern has no dot without a backslash, no `\*` or `\?`, and no star right after `\)` |
| Patterns.DotTakesAny | src/backend/pattern.c:272-274 | the pattern `a.` takes `ab` |
| Patterns.EscapedStar | src/backend/pattern.c:251-270 | the pattern `\*` gives an expression for runs of dots, which takes the empty text and not `*` |
| Patterns.WholeMatch | src/backend/pattern.c:589-600 | under leftmost-longest matching the test on the reported part accepts exactly the strings that match as a whole |
| Patterns.ReportedMeans | src/backend/pattern.c:589-600 | so for those patterns whose meaning is kept a text passes the test exactly when the pattern stands for it |
| PatternMatching.ShellPatternToRegex | src/backend/pattern.c:119-292 | the loop over the pattern appends the translation |
| PatternMatching.MatchPrefix | src/backend/pattern.c:302-346 | the shortest or longest proper prefix that the expression accepts, with the text restored after each temporary terminator |
| PatternMatching.MatchSuffix | src/backend/pattern.c:355-394 | the same for suffixes |
| PatternMatching.RemovalExact | src/backend/pattern.c:302-394 | for every pattern whose meaning is kept, what is left is what XCU section 2.6.2 asks for, by the section 2.13 meaning of the pattern, if and only if, for the longest match, the pattern does not stand for the whole text, and for the shortest, no inner cut competes with the empty match and the whole text is not the only match |
| PatternMatching.StarLeavesOne | src/backend/pattern.c:302-346 | the longest prefix that `*` takes leaves the last character, where section 2.6.2 leaves nothing |

## Left out

- System calls, process creation, pipes, process groups, terminals, real signal masks, memory failure, the string pool and the symbol table: they are parameters, steps of a machine, sequences and maps.
- The user interface, startup, built-in utilities and options other than those named above.
- Evaluator: signed overflow and shift counts outside 0 to 63 are undefined in C; the model wraps, and takes shift counts modulo 64.
- Evaluator: the variable flags and the fixed buffer a stored number is printed in.
- Evaluator: tokens are given; telling prefix from postfix `++` and `--` (src/shunt.c:1284-1320), literals beyond `int` (src/shunt.c:1341), variables that hold unevaluated expressions and the fallback to command substitution are not modelled.
- Numerals.BasedRoundTrip: numbers beyond `long` are not covered, because they overflow in the source.
- WordPasses.UnquotedSplit: an unquoted variable with single quotes and an IFS with a backslash are excluded; VariableWords.VariableExact says what becomes of the single quotes.
- VariableWords.VariableExact: an IFS with a single quote or a backslash is excluded.
- Word passes: buffers for more than 64 IFS characters, the linked list of words and parameter expansion operators.
- LoopFlow.ProgramRefines: `break` and `continue` inside a test clause or beyond the nesting depth are excluded by Bounded, as the source does not clamp them; LoopLeaving.BreakLeaves says what becomes of such a break.
- Loops: select, arithmetic for, SIGINT, the ERR trap, return, redirections, and re-entry through eval and dot. Passes of while and until loops are bounded by fuel.
- Waiting: a call without a job, a job that is already in the table, set_job_exit_status, the signal that is sent on to the process group, and a handler that interrupts an operation on the dead list.
- WaitLoop.DeadList.RipDead: a completely full dead list is excluded, because the shift then reads one entry beyond it.
- Waiting.NotLost: a full dead list is excluded by fewer than 32 different processes, because the source drops reports when the list is full.
- WaitLoop.WaitOnChild: the same; reports that come between the return of rip_dead and notice_termination are taken together at one place.
- Processes: the bit map is a set of positions, so that the sign bit of the 32nd process plays no part.
- Jobs: output, disowning, pids and command strings of table entries, and `$!`.
- ClosingBrace.FindClosingBrace: quotes, here-documents, comments, and `case` in text with parentheses are excluded.
- Braces: numbers beyond `long`, for which atol is undefined; a range whose step overflows `char` or `long` (the source's counting loop then wraps), a quote that is never closed in the word (the source then reads beyond the terminator), and the option test.
- BraceWords.RangeItems: numbers beyond `long` are read as written, so that the row holds of the source within `long` only.
- BraceSplit.CommaSplit: the closing brace is the one of Find, which is the source's search on the text of ClosingBrace.FindClosingBrace; brace expansion itself is proved for whatever index the search answers.
- BraceWords.CommaWord: the same.
- BraceList.GetRange: a third part that would have negative length is an error here and undefined in the source.
- Patterns.TranslateMeans: brackets, extended groups, double quotes, a backslash before any other character, and the characters `^ $ + { }` without a backslash, which the source never escapes, are excluded. Quoted `&` and `]` become `\&` and `\]`, which section 9.4 leaves undefined and which are taken for the characters themselves.
- PatternMatching.ShellPatternToRegex: double quotes, brackets outside quotes and unbalanced quotes are excluded. regcomp and regexec are represented by what their expressions accept.
- PatternMatching.MatchSuffix: the pattern is one of those of Patterns.TranslateMeans or has dots, so that what its expression accepts is modelled.
- PatternMatching.MatchPrefix: the same; and the empty text is excluded, because the source then reads beyond its terminator.
- Pathname expansion and extended globbing.
