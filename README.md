# MathParser in Dafny

This project is a Dafny model of the core of MathParser, a C# library that
turns a formula string such as `"sin(x) + 2^y"` into a tree of operation
nodes over numbers and booleans and wraps that tree in an `Expression`. The
model covers the following steps:

- the syntax analyser (`SyntaxAnalyzer`): character validation, parenthesis
  and separator checks, the split into keywords, the splitting of operator
  runs into prefix, infix and postfix operators, the recognition of literal,
  function, constant and argument names, and the adjacency rules between
  keywords;
- the tree builder of `Parser`: outer-bracket removal, splitting-point
  search, the `Build*` methods, the argument lists of calls, and
  `Process`/`Parse`/`TryParse`;
- argument typization (`ArgumentTypizationHandler` and the typing methods of
  the nodes);
- the registry of operations (`MathCollection`, `ParserGlobal`, the 32
  operators, functions and constants);
- the `Operation` state machine and the `Expression` and `Function` wrappers.

Modules, in the order a formula passes through them:

- `Wrappers`, `Seqs`, `Text`: option/result types, sequence lemmas, and character classes.
- `Domains`, `Errors`, `Naming`, `NameRules`: value domains (`Double`, `Boolean`),
  the numbers the model uses (`Num`: finite real, NaN, infinities), the error
  kinds of `ExceptionBuilder`, and the name rules.
- `Operations`, `Operators`, `Functions`, `Constants`, `Expressions`,
  `ParserGlobal`, `MathCollections`, `Duplicates`: the operation state
  machine (`Operations.Operation`, a class), the operator table, the
  built-ins, and the collection with its insertion and removal rules
  (`MathCollections.MathCollection`, a class).
- `Keywords`, `Lexer`, `Preliminary`, `SeparatorRule`, `OperatorContexts`,
  `OperatorSplit`, `AdjacencyRules`, `Analyzer`: the analyser. Its state
  (`Analyzer.SyntaxAnalyzer`, a class) accumulates errors the way the
  source's instance does.
- `Brackets`, `Splitting`, `Nesting`, `SyntaxNodes`, `Building`: the tree
  builder and the nodes.
- `TypizationHandler`, `Typization`: argument typization.
- `Parsing`, `Construction`: the parser class (`Parsing.Parser`) and the
  constructors that parse a string into an `Expression` or a `Function`.

Each loop of the source is a `method` proved against a specification
function. The lemmas beside that function state what the source promises,
for example:

- each keyword of the analyser's split is the substring at its position, in order;
- the splitting point is the lowest-priority top-level operator;
- for a well-formed call the nested expressions are exactly its arguments;
- typization only adds failures;
- removal undoes insertion in the collection.

## Model

| member | source | states |
|---|---|---|
| Lexer.TypeOfCharacterFacts | MathParser/Parser/SyntaxAnalyzer.cs:184-212 | GetTypeByCharacter: '(' ')' ',' are recognised alone and only they get those types; a digit joins a name only after a name character; a literal is made of literal characters; an operator run takes operator characters and a space only right after an operator; a character gets no type exactly when it is a space outside an operator run or is not a valid character |
| Lexer.WordDecisions | MathParser/Parser/SyntaxAnalyzer.cs:214-263 | MustContinueWord excludes the other two decisions; otherwise a word is finalized exactly when there was a previous type and a new one is started exactly when the character has a type |
| Lexer.SplitToKeywordArray | MathParser/Parser/SyntaxAnalyzer.cs:153-182 | the loop over the characters and the final flush return exactly Lex(s) |
| Lexer.ContinueKeepsInv | MathParser/Parser/SyntaxAnalyzer.cs:163-167 | a character that continues the word keeps the lexer's loop invariant |
| Lexer.WordGrows | MathParser/Parser/SyntaxAnalyzer.cs:163-167 | a continuing character extends the pending word, which stays the substring at its start and keeps fitting its type; the depth does not move |
| Lexer.FlushKeepsEmitted | MathParser/Parser/SyntaxAnalyzer.cs:168-169 | emitting the pending word (MustFinalizeWord) leaves a well-ordered list of substrings whose depths agree with the text |
| Lexer.PushKeepsEmitted | MathParser/Parser/SyntaxAnalyzer.cs:168-169 | the emitted keyword is the substring ending at the current position and brings the keyword depth to the text depth there |
| Lexer.StartKeepsInv | MathParser/Parser/SyntaxAnalyzer.cs:170-176 | starting a new word at a typed character re-establishes the loop invariant |
| Lexer.StartedWord | MathParser/Parser/SyntaxAnalyzer.cs:170-175 | the one-character word just started is the substring at its position, fits its type, and moves the depth as its keyword will |
| Lexer.StartBoundary | MathParser/Parser/SyntaxAnalyzer.cs:168-176 | a new word starts after the last emitted one, and strictly after it when nothing separated two types that would have merged |
| Lexer.SingleCharacterFits | MathParser/Parser/SyntaxAnalyzer.cs:184-212 | a character that starts a word is a word of its type on its own (a name does not start with a digit) |
| Lexer.SkipKeepsInv | MathParser/Parser/SyntaxAnalyzer.cs:160-177 | a character without a type (a separating space, an invalid character) keeps the loop invariant |
| Lexer.BreakKeepsInv | MathParser/Parser/SyntaxAnalyzer.cs:168-177 | a character that does not continue the word keeps the loop invariant |
| Lexer.StepKeepsInv | MathParser/Parser/SyntaxAnalyzer.cs:160-177 | one iteration of the loop keeps the invariant |
| Lexer.LexUpToInv | MathParser/Parser/SyntaxAnalyzer.cs:160-177 | after any number of iterations the loop invariant holds |
| Lexer.LexProducesWords | MathParser/Parser/SyntaxAnalyzer.cs:153-182 | every keyword is the substring of the input at its original position, its word fits its type, and the keywords come in order without overlap, with two words of the same multi-character type never touching |
| Lexer.LexKeepsDepths | MathParser/Parser/SyntaxAnalyzer.cs:153-182 | parentheses become keywords one to one: every prefix of the keywords has the parenthesis depth of the text it covers, and the whole has the depth of the whole text |
| Lexer.LexNameExample | MathParser/Parser/SyntaxAnalyzer.cs:201-202 | "x1" is one name: a digit after a name character continues the name |
| Lexer.LexLiteralExample | MathParser/Parser/SyntaxAnalyzer.cs:201-206 | "2x" is the literal "2" followed by the name "x" |
| Lexer.LexOperatorExample | MathParser/Parser/SyntaxAnalyzer.cs:188-190 | "a< -b" keeps the space inside the operator run "< -" |
| Lexer.WordSeenStays | MathParser/Parser/SyntaxAnalyzer.cs:160-180 | once a typed character was read, a word is pending or has been emitted |
| Lexer.LexFindsAWord | MathParser/Parser/SyntaxAnalyzer.cs:153-182 | a text holding a literal or naming character lexes into at least one keyword |
| Preliminary.CharacterErrors | MathParser/Parser/SyntaxAnalyzer.cs:119-133 | ValidateCharacters reports at most one error per character examined |
| Preliminary.CharacterErrorsSound | MathParser/Parser/SyntaxAnalyzer.cs:119-133 | every error ValidateCharacters reports is an InvalidCharacter naming the index of a character that is not allowed |
| Preliminary.CharacterErrorsComplete | MathParser/Parser/SyntaxAnalyzer.cs:119-133 | every character that is not allowed is reported by its index |
| Preliminary.CharacterErrorsOrdered | MathParser/Parser/SyntaxAnalyzer.cs:119-133 | the reports come in strictly increasing order of index, so no character is reported twice |
| Preliminary.PreliminaryErrors | MathParser/Parser/SyntaxAnalyzer.cs:99-117 | PreliminaryCheck passes exactly when the text is not blank, every character is valid, the parentheses balance and a literal or naming character occurs; a blank text gives only ExpressionStringIsNullOrWhitespace; an invalid character gives only InvalidCharacter errors |
| Preliminary.CheckedTextLexesBalanced | MathParser/Parser/SyntaxAnalyzer.cs:99-182 | text that passes PreliminaryCheck lexes into a non-empty keyword array whose parenthesis depth never drops below zero and ends at zero |
| Analyzer.CharacterScan | MathParser/Parser/SyntaxAnalyzer.cs:123-130 | the loop of ValidateCharacters collects exactly the InvalidCharacter errors of the whole text |
| Analyzer.SyntaxAnalyzer.constructor | MathParser/Parser/SyntaxAnalyzer.cs:15-35 | the analyzer holds copies of the constants, functions and the three symbol lists, with nothing accumulated |
| Analyzer.SyntaxAnalyzer.Run | MathParser/Parser/SyntaxAnalyzer.cs:37-89 | Run returns exactly Analyze of the text (ok, keywords, argument names, formatted string, errors) and the accumulated list is the returned errors |
| Analyzer.SyntaxAnalyzer.RunKeywordStages | MathParser/Parser/SyntaxAnalyzer.cs:62-88 | after the second stage: its errors when there are any, else the adjacency errors when there are any, else the last stage; this is exactly AnalyzeKeywords, and the accumulated list is the returned errors |
| Analyzer.SyntaxAnalyzer.RunOperatorStage | MathParser/Parser/SyntaxAnalyzer.cs:79-88 | SpecifyOperators' errors when it fails, else success with the argument names and the formatted string of the split keywords; this is exactly AnalyzeOperators |
| Analyzer.Analyze | MathParser/Parser/SyntaxAnalyzer.cs:37-89 | the stages run in order and stop after the first that reports an error; the result is ok exactly when it carries no error |
| Analyzer.AnalyzeKeywords | MathParser/Parser/SyntaxAnalyzer.cs:62-81 | after the keyword stage: its errors, else the adjacency errors, else the operator stage; ok exactly when there is no error |
| Analyzer.AnalyzeOperators | MathParser/Parser/SyntaxAnalyzer.cs:76-88 | SpecifyOperators, then the argument names and the formatted string; ok exactly when there is no error |
| Analyzer.SyntaxAnalyzer.PreliminaryCheck | MathParser/Parser/SyntaxAnalyzer.cs:99-117 | returns true exactly when PreliminaryErrors is empty and appends exactly those errors |
| Analyzer.SyntaxAnalyzer.ValidateCharacters | MathParser/Parser/SyntaxAnalyzer.cs:119-133 | valid exactly when no character is invalid; appends the InvalidCharacter errors in index order |
| Analyzer.SyntaxAnalyzer.ValidateParenthesis | MathParser/Parser/SyntaxAnalyzer.cs:135-151 | the scan that stops at the first unmatched ')' succeeds exactly when the depth never drops below zero and ends at zero; one InvalidParenthesis otherwise |
| Analyzer.SyntaxAnalyzer.SplitAndSpecifyNames | MathParser/Parser/SyntaxAnalyzer.cs:55-59 | the keywords are the lexed and name-specified ones and the errors of the literal/name, function and separator checks are appended in that order |
| Analyzer.SyntaxAnalyzer.ValidateLiteralsAndNames | MathParser/Parser/SyntaxAnalyzer.cs:265-284 | valid exactly when every literal and name is well formed; appends one error per bad word in order |
| Analyzer.SyntaxAnalyzer.SpecifyNames | MathParser/Parser/SyntaxAnalyzer.cs:286-300 | the in-place loop leaves the array equal to SpecifiedNames of its old contents |
| Analyzer.SyntaxAnalyzer.SpecifyNameAt | MathParser/Parser/SyntaxAnalyzer.cs:288-298 | one iteration changes only index i, to its specified keyword, read from the entries the loop has not changed yet |
| Analyzer.SyntaxAnalyzer.IsFunctionAtIndex | MathParser/Parser/SyntaxAnalyzer.cs:302-319 | returns IsFunctionAt: a name followed by '(' and one more keyword that is registered or called with an arity other than 1 |
| Analyzer.SyntaxAnalyzer.ValidateFunctions | MathParser/Parser/SyntaxAnalyzer.cs:321-350 | valid exactly when FunctionErrors is empty; appends UndefinedFunction / InvalidFunctionCalling errors in order |
| Analyzer.SyntaxAnalyzer.GetFunctionCallingArity | MathParser/Parser/SyntaxAnalyzer.cs:361-383 | the separator-counting loop returns CallArity: 0 for "f()", else the top-level separators before the call's ')' plus one |
| Analyzer.SyntaxAnalyzer.ValidateArgumentSeparators | MathParser/Parser/SyntaxAnalyzer.cs:388-418 | valid exactly when no separator is misplaced; appends one UnexpectedArgumentSeparatorUsage per misplaced separator in order |
| Analyzer.SeparatorStep | MathParser/Parser/SyntaxAnalyzer.cs:398-414 | one iteration of the switch advances past the keyword (two past a function keyword), keeps the depth map meaningful and adds exactly the error for that keyword |
| Analyzer.SyntaxAnalyzer.ValidateAdjacency | MathParser/Parser/SyntaxAnalyzer.cs:68-69 | appends the operator-usage errors, then the nested-expression errors |
| Analyzer.SyntaxAnalyzer.ValidateOperatorsUsage | MathParser/Parser/SyntaxAnalyzer.cs:439-493 | valid exactly when no pair lacks or misuses an operator; appends the errors of both tables pair by pair |
| Analyzer.SyntaxAnalyzer.ValidateNestedExpressionsUsage | MathParser/Parser/SyntaxAnalyzer.cs:513-541 | valid exactly when no pair needs a nested expression (with "()" checked at index 0 as well); appends NestedErrors |
| Analyzer.SyntaxAnalyzer.SpecifyOperators | MathParser/Parser/SyntaxAnalyzer.cs:561-622 | returns the keywords and validity of OperatorContexts.SpecifyOperators and appends its errors |
| Analyzer.SyntaxAnalyzer.GetFormattedExpressionString | MathParser/Parser/SyntaxAnalyzer.cs:723-739 | the loop builds exactly Formatted(ks) |
| Analyzer.SyntaxAnalyzer.GetArgumentNames | MathParser/Parser/SyntaxAnalyzer.cs:741-748 | the loop plus Distinct returns ArgumentNames(ks): the argument words once each, in order of first occurrence (ArgumentNamesAreTheArguments, ArgumentNamesInOrder) |
| Analyzer.ArgumentWords | MathParser/Parser/SyntaxAnalyzer.cs:741-747 | a word is collected exactly when some argument keyword among the first n has it |
| Analyzer.ArgumentNamesAreTheArguments | MathParser/Parser/SyntaxAnalyzer.cs:741-748 | the argument names have no repetition and are exactly the words of the argument keywords |
| Analyzer.ArgumentNamesInOrder | MathParser/Parser/SyntaxAnalyzer.cs:741-748 | the argument names come in the order in which each first occurs as an argument keyword: for i < j the first keyword of name i precedes that of name j |
| Analyzer.FirstArgument | MathParser/Parser/SyntaxAnalyzer.cs:741-748 | the position of the first argument keyword carrying a word: it carries the word and no earlier argument keyword does; n when none before n does |
| Analyzer.ArgumentWordsHaveAFirst | MathParser/Parser/SyntaxAnalyzer.cs:741-747 | a word is collected among the first n keywords exactly when its first argument keyword lies before n |
| Analyzer.EarlierArgumentsKeepOrder | MathParser/Parser/SyntaxAnalyzer.cs:741-748 | names already seen keep their first positions and their order when one more keyword is read |
| Analyzer.NewArgumentComesLast | MathParser/Parser/SyntaxAnalyzer.cs:741-748 | an argument word seen for the first time comes after every name seen before it |
| Analyzer.ArgumentWordsStep | MathParser/Parser/SyntaxAnalyzer.cs:741-747 | one keyword more adds its word to the collected words exactly when it is an argument |
| Analyzer.NamesUpToStep | MathParser/Parser/SyntaxAnalyzer.cs:741-748 | one keyword more adds its word to the distinct names exactly when it is an argument whose word was not collected before |
| Analyzer.InOrderStep | MathParser/Parser/SyntaxAnalyzer.cs:741-748 | reading one keyword more keeps the distinct names in order of first occurrence |
| Analyzer.ArgumentWordsInOrder | MathParser/Parser/SyntaxAnalyzer.cs:741-748 | the distinct names collected before n are listed in order of their first argument keyword |
| Analyzer.FormattedUpToKeepsWords | MathParser/Parser/SyntaxAnalyzer.cs:726-736 | after n iterations the built string, without whitespace, is the first n words concatenated |
| Analyzer.FormattedKeepsWords | MathParser/Parser/SyntaxAnalyzer.cs:723-739 | formatting only inserts whitespace: without spaces the formatted string is the words written one after another |
| Analyzer.FormattingExamples | MathParser/Parser/SyntaxAnalyzer.cs:730-735 | "a+b" is written "a + b" and "f(x,y)" is written "f(x, y)" |
| Analyzer.NamedKeywords | MathParser/Parser/SyntaxAnalyzer.cs:55-57 | the lexed, name-specified keywords are as many as the lexed ones and every function keyword is followed by '(' and one more keyword |
| NameRules.LiteralAndNameErrors | MathParser/Parser/SyntaxAnalyzer.cs:265-284 | one InvalidLiteral or InvalidName per bad word, every bad word reported, none exactly when all words are valid |
| NameRules.ScanEnd | MathParser/Parser/SyntaxAnalyzer.cs:368-382 | the arity scan stops at the first index whose relative depth is negative, or at the end |
| NameRules.ScanEndAt | MathParser/Parser/SyntaxAnalyzer.cs:368-382 | any index at which the depth first becomes negative (or the end, if it never does) is where the scan stops |
| NameRules.TopSeparators | MathParser/Parser/SyntaxAnalyzer.cs:377-379 | the count of separators at relative depth zero is at most the number of keywords scanned |
| NameRules.SmallCallArities | MathParser/Parser/SyntaxAnalyzer.cs:361-383 | "f()" has arity 0 and "f(x)" arity 1, whatever follows |
| NameRules.NestedCallArity | MathParser/Parser/SyntaxAnalyzer.cs:352-360 | the comment's example "f1(a, f2(b, c)) + f3(d, e)" gives f1 arity 2 |
| NameRules.SpecifiedNames | MathParser/Parser/SyntaxAnalyzer.cs:286-300 | SpecifyNames changes only subtypes of names: words, kinds and positions are kept, and non-names are untouched |
| NameRules.SpecifiedNamesShape | MathParser/Parser/SyntaxAnalyzer.cs:286-319 | on the lexer's keywords, exactly the names get a subtype, none an operator subtype, and each function keyword is followed by '(' and one more keyword |
| NameRules.NameClassification | MathParser/Parser/SyntaxAnalyzer.cs:286-319 | a name is a function exactly when followed by '(' and one more keyword and registered or not called with arity 1; else a constant exactly when a constant has its name; else an argument; an unknown "f(x)" is an argument |
| NameRules.FunctionError | MathParser/Parser/SyntaxAnalyzer.cs:326-348 | at most one error per keyword |
| NameRules.FunctionErrors | MathParser/Parser/SyntaxAnalyzer.cs:321-350 | at most one error per keyword scanned, each UndefinedFunction or InvalidFunctionCalling |
| NameRules.FunctionErrorsIff | MathParser/Parser/SyntaxAnalyzer.cs:321-350 | no error exactly when every function keyword has an overload of the arity it is called with |
| NameRules.UndefinedFunctionsAfterSpecifyNames | MathParser/Parser/SyntaxAnalyzer.cs:302-336 | after SpecifyNames, UndefinedFunction is reported exactly for unregistered names followed by '(' and called with zero or several arguments |
| SeparatorRule.LastOpen | MathParser/Parser/SyntaxAnalyzer.cs:388-418 | the last '(' before index i that opened depth d, or -1: it is a '(' at that depth, and none comes between it and i |
| SeparatorRule.SeparatorErrors | MathParser/Parser/SyntaxAnalyzer.cs:396-415 | at most one error per keyword, each UnexpectedArgumentSeparatorUsage |
| SeparatorRule.SeparatorErrorsIff | MathParser/Parser/SyntaxAnalyzer.cs:388-418 | nothing is reported exactly when no separator is misplaced, and each misplaced separator is reported by its position |
| SeparatorRule.SameOpensBelow | MathParser/Parser/SyntaxAnalyzer.cs:398-414 | a keyword that opens none of the depths 1..top keeps their last '(' |
| SeparatorRule.ScanStart | MathParser/Parser/SyntaxAnalyzer.cs:392-394 | the initial map {0: false} with depth 0 is a meaningful scan state |
| SeparatorRule.ScanClose | MathParser/Parser/SyntaxAnalyzer.cs:400-402 | ')' closes its depth, keeps the state meaningful and reports nothing |
| SeparatorRule.ScanOpen | MathParser/Parser/SyntaxAnalyzer.cs:403-405 | '(' opens a depth recorded as no call and reports nothing |
| SeparatorRule.ScanCall | MathParser/Parser/SyntaxAnalyzer.cs:406-409 | a function keyword opens its call's depth, skips its '(' and reports nothing |
| SeparatorRule.ScanOther | MathParser/Parser/SyntaxAnalyzer.cs:410-413 | any other keyword keeps the state; a separator is reported exactly when its depth is recorded as no call |
| SeparatorRule.BracketedSeparatorIsReported | MathParser/Parser/SyntaxAnalyzer.cs:385-387 | the comment's example "f(x, (y, z))": exactly the second separator is reported |
| SeparatorRule.TopLevelSeparatorIsReported | MathParser/Parser/SyntaxAnalyzer.cs:388-418 | a separator outside every parenthesis is always reported |
| AdjacencyRules.OperatorUsageErrors | MathParser/Parser/SyntaxAnalyzer.cs:439-493 | no error exactly when no pair has an operator applying to nothing or a missing infix operator; every error is one of those two |
| AdjacencyRules.OperatorUsageExamples | MathParser/Parser/SyntaxAnalyzer.cs:420-438 | cells of the table: "2x" needs an operator, "(+)" and "f(x,-)" hold an operator that applies to nothing |
| AdjacencyRules.NestedErrorsAsWritten | MathParser/Parser/SyntaxAnalyzer.cs:513-541 | the check as written reports nothing exactly when no pair matches its switch (which never matches "()" at index 0) |
| AdjacencyRules.NestedErrors | MathParser/Parser/SyntaxAnalyzer.cs:495-512 | with the table's rule for "()", nothing is reported exactly when no pair needs a nested expression; every error is NestedExpressionIsRequired |
| AdjacencyRules.NestedRulesDifferOnlyAtStart | MathParser/Parser/SyntaxAnalyzer.cs:520-528 | the switch as written and the table's rule disagree exactly on a "()" at index 0 |
| AdjacencyRules.NestedErrorsFreeMeansNoEmptyGroups | MathParser/Parser/SyntaxAnalyzer.cs:495-512 | keywords that pass hold no empty bracket except a function's "()" and no empty argument |
| AdjacencyRules.EmptyBracketAtStartPassesAsWritten | MathParser/Parser/SyntaxAnalyzer.cs:518-528 | "()+1" passes both adjacency checks as written, while the table's rule reports the "()" |
| OperatorContexts.Others | MathParser/Parser/SyntaxAnalyzer.cs:571-575 | the keywords that are not operator runs, each taken from the input, never more of them than the input has |
| OperatorContexts.SplitKeywordsFromSets | MathParser/Parser/SyntaxAnalyzer.cs:578-602 | a successful split of a run in its context is not empty, and every keyword of it is an operator whose subtype is prefix, infix or postfix and whose symbol is in that set |
| OperatorContexts.Splits | MathParser/Parser/SyntaxAnalyzer.cs:569-608 | one entry per keyword: the split of each operator run in its context |
| OperatorContexts.SplitsAreFromSets | MathParser/Parser/SyntaxAnalyzer.cs:578-602 | every successful split the loop uses is a non-empty list of operators taken from the sets |
| OperatorContexts.SpecifyUpTo | MathParser/Parser/SyntaxAnalyzer.cs:569-619 | after n keywords the loop has reported only OperatorCanNotBeParsed errors and has at least n keywords (a split run is never empty) |
| OperatorContexts.SpecifyErrorsIff | MathParser/Parser/SyntaxAnalyzer.cs:603-614 | over a prefix of the keywords: nothing is reported exactly when every operator run in it splits, and each run that does not is reported with its word and position |
| OperatorContexts.SpecifyOperatorsReports | MathParser/Parser/SyntaxAnalyzer.cs:561-622 | SpecifyOperators reports nothing if and only if every operator run splits in its context, and reports every run that does not |
| OperatorContexts.OthersAppend | MathParser/Parser/SyntaxAnalyzer.cs:571-575 | appending one keyword adds it to the non-operator keywords exactly when it is not an operator |
| OperatorContexts.OthersOfPrefix | MathParser/Parser/SyntaxAnalyzer.cs:571-575 | the non-operator keywords of a prefix grow by the last keyword exactly when it is not an operator |
| OperatorContexts.OthersOfOperators | MathParser/Parser/SyntaxAnalyzer.cs:615-618 | appending a split (operators only) adds no non-operator keyword |
| OperatorContexts.SpecifyKeepsOthers | MathParser/Parser/SyntaxAnalyzer.cs:569-619 | over a prefix: the keywords that are not operator runs come out untouched and in the same order |
| OperatorContexts.SpecifiedOperatorsAreSymbols | MathParser/Parser/SyntaxAnalyzer.cs:603-618 | over a prefix, when nothing is reported every operator keyword of the result has a prefix, infix or postfix subtype and a symbol of that set |
| OperatorContexts.SpecifyOperatorsShape | MathParser/Parser/SyntaxAnalyzer.cs:561-622 | SpecifyOperators keeps every keyword that is not an operator run, in order, and without errors every operator keyword it leaves carries a subtype and a symbol of that subtype's set |
| OperatorContexts.ContextDecidesSubtypes | MathParser/Parser/SyntaxAnalyzer.cs:578-602 | a run before ')', ',' or the end splits into postfix operators only; a run after '(', ',' or the start into prefix operators only; a run between operands holds an infix operator |
| OperatorContexts.SplitRunTiles | MathParser/Parser/SyntaxAnalyzer.cs:578-608 | a split run is the run itself cut into symbols: they spell the run without its spaces, each at its own position in the expression |
| OperatorSplit.LeadingSpaces | MathParser/Parser/SyntaxAnalyzer.cs:637-641 | the count of leading spaces the while loop strips: all of them, and no further |
| OperatorSplit.LeadingSpacesAreCounted | MathParser/Parser/SyntaxAnalyzer.cs:637-641 | when the loop stops (the next character is not a space, or there is none) it has stripped exactly the leading spaces |
| OperatorSplit.Candidates | MathParser/Parser/SyntaxAnalyzer.cs:660-664 | a symbol is a candidate exactly when it is in the chosen set and the run starts with it |
| OperatorSplit.CandidatesAppend | MathParser/Parser/SyntaxAnalyzer.cs:661-663 | each turn of the foreach appends the symbol exactly when the run starts with it |
| OperatorSplit.InsertByLength | MathParser/Parser/SyntaxAnalyzer.cs:669 | inserting into a list sorted by length keeps it sorted, adds exactly the new symbol and loses none |
| OperatorSplit.SortByLength | MathParser/Parser/SyntaxAnalyzer.cs:669 | the candidates sorted ascending by length: sorted, the same length, the same members |
| OperatorSplit.CandidatesOfOneLengthAreEqual | MathParser/Parser/SyntaxAnalyzer.cs:669 | two candidates of one length are the same string, so the order an unstable sort leaves them in cannot change the result |
| OperatorSplit.CandidateFails | MathParser/Parser/SyntaxAnalyzer.cs:684-713 | a candidate shorter than the run succeeds exactly when the rest of the run splits (with no infix symbol after an infix one), giving the candidate followed by that split; otherwise the loop goes on to the next shorter candidate |
| OperatorSplit.TryParseOperators | MathParser/Parser/SyntaxAnalyzer.cs:627-678 | the method with the trimming loop, the choice of set and the candidate collection returns true and the split exactly when the specification yields one, and false with an empty result otherwise |
| OperatorSplit.CollectCandidates | MathParser/Parser/SyntaxAnalyzer.cs:659-664 | the symbols gathered are exactly those of the set in force that the run starts with, in the set's order |
| OperatorSplit.TryCandidatesLoop | MathParser/Parser/SyntaxAnalyzer.cs:680-720 | the descending candidate loop and its fallback return true and the split exactly when the specification yields one, and false with an empty result otherwise |
| OperatorSplit.LastIsLongest | MathParser/Parser/SyntaxAnalyzer.cs:669-680 | after the sort the last candidate, tried first, is a longest one |
| OperatorSplit.WholeCandidateWins | MathParser/Parser/SyntaxAnalyzer.cs:680-700 | when the whole run is among the candidates sorted by length, the loop's first iteration takes it as the single keyword of the split |
| OperatorSplit.WholeRunSymbolWins | MathParser/Parser/SyntaxAnalyzer.cs:666-698 | with no postfix symbols in force, a run that is itself a symbol of the set in force is that one symbol, at the position after the leading spaces, so "<-" is converse implication and never "<" then "-" |
| OperatorSplit.AllOfCons | MathParser/Parser/SyntaxAnalyzer.cs:701-710 | a symbol of a subtype's set put in front of a split made only of that subtype's symbols keeps it so |
| OperatorSplit.TryParseShape | MathParser/Parser/SyntaxAnalyzer.cs:627-721 | a successful split is postfix symbols, then exactly one infix symbol when infix symbols were allowed, then prefix symbols, each from its own set; with no postfix symbols allowed there is no postfix part, and with only postfix symbols allowed it is postfix symbols only |
| OperatorSplit.TryCandidatesShape | MathParser/Parser/SyntaxAnalyzer.cs:680-720 | the same shape for the result of the candidate loop |
| OperatorSplit.TryOneResult | MathParser/Parser/SyntaxAnalyzer.cs:687-713 | a successful iteration yields the current symbol at the run's position with the subtype of the set in force, followed by the split of the rest of the run |
| OperatorSplit.TryOneShape | MathParser/Parser/SyntaxAnalyzer.cs:684-713 | the same shape for one iteration that is not skipped |
| OperatorSplit.ShapeOfOne | MathParser/Parser/SyntaxAnalyzer.cs:694-698 | a single symbol of the set in force, with that set's subtype, has the shape whenever postfix and infix symbols are not both allowed (the case the loop skips) |
| OperatorSplit.ShapeOfCons | MathParser/Parser/SyntaxAnalyzer.cs:701-710 | the current symbol in front of a split of the rest that has the shape keeps the shape |
| OperatorSplit.SplitInContexts | MathParser/Parser/SyntaxAnalyzer.cs:578-602 | in SpecifyOperators' three contexts the split is all postfix, all prefix, or holds exactly one infix symbol |
| OperatorSplit.NonSpaceAppend | MathParser/Parser/SyntaxAnalyzer.cs:636-641 | removing whitespace distributes over concatenation |
| OperatorSplit.NonSpaceOfAllWhite | MathParser/Parser/SyntaxAnalyzer.cs:636 | a string of whitespace has nothing left once whitespace is removed |
| OperatorSplit.NonSpaceOfSymbol | MathParser/Parser/SyntaxAnalyzer.cs:661-662 | a symbol without whitespace is unchanged by removing whitespace |
| OperatorSplit.TrimmedRun | MathParser/Parser/SyntaxAnalyzer.cs:636-641 | TrimEnd and the leading-space loop remove only whitespace |
| OperatorSplit.PlacedShift | MathParser/Parser/SyntaxAnalyzer.cs:703-704 | a keyword placed in the rest of the run, at the moved position, is placed in the run itself |
| OperatorSplit.PlacedPrefix | MathParser/Parser/SyntaxAnalyzer.cs:636 | a keyword placed in the trimmed run is placed in the run |
| OperatorSplit.TryParseTiles | MathParser/Parser/SyntaxAnalyzer.cs:627-721 | a successful split tiles the run: the symbols in order spell the run without its whitespace, and each is the substring of the run at its own position |
| OperatorSplit.TryParseUnfolds | MathParser/Parser/SyntaxAnalyzer.cs:636-680 | a successful split comes from the candidate loop over the trimmed run, which is a prefix of the run that spells it without whitespace |
| OperatorSplit.TrimmedTiles | MathParser/Parser/SyntaxAnalyzer.cs:636-641 | a tiling of the trimmed run at the moved position tiles the run |
| OperatorSplit.TryCandidatesTiles | MathParser/Parser/SyntaxAnalyzer.cs:680-720 | the candidate loop's result tiles the trimmed run |
| OperatorSplit.TryOneTiles | MathParser/Parser/SyntaxAnalyzer.cs:687-713 | one iteration's result tiles the trimmed run |
| OperatorSplit.TilesCons | MathParser/Parser/SyntaxAnalyzer.cs:701-710 | a symbol at the head of the run followed by a tiling of the rest tiles the run |
| OperatorContexts.SplitAt | MathParser/Parser/SyntaxAnalyzer.cs:571-608 | a keyword that is not an operator run is kept as it is; a run succeeds exactly when its split with the sets its neighbours allow exists, and then yields that split |
| Brackets.CheckParenthesis | MathParser/Parser/Parser.cs:122-134 | the loop, which stops at the first ')' closing nothing, returns true exactly when the keywords are balanced: no prefix closes more than it opened and the whole closes all it opened |
| Brackets.Unwrapped | MathParser/Parser/Parser.cs:103-120 | stripping outer parentheses never lengthens the keywords |
| Brackets.RemoveOuterBrackets | MathParser/Parser/Parser.cs:103-120 | the do-while loop returns exactly the stripped keywords of the specification |
| Brackets.UnwrappedIsStable | MathParser/Parser/Parser.cs:103-120 | the result is not a balanced inside wrapped in one more pair, so stripping it again changes nothing |
| Brackets.Layers | MathParser/Parser/Parser.cs:108-117 | the number of pairs stripped uses at most all of the keywords |
| Brackets.MiddleOfInner | MathParser/Parser/Parser.cs:115 | the middle of the inside of a wrapped sequence is the middle of the sequence shifted by one |
| Brackets.PeeledGrows | MathParser/Parser/Parser.cs:113-115 | peeling d pairs from the inside and one pair around it peels d + 1 pairs from the sequence |
| Brackets.UnwrappedIsCentered | MathParser/Parser/Parser.cs:103-120 | the result is the middle of the input with as many '(' cut from the front as ')' from the back, and when anything was cut it is balanced |
| Brackets.UnwrappedKeepsBalance | MathParser/Parser/Parser.cs:103-120 | stripping never unbalances a balanced sequence |
| Brackets.SeparateGroupsAreKept | MathParser/Parser/Parser.cs:113-117 | "(1)+(2)" keeps its parentheses, because the inside "1)+(2" is not balanced |
| Splitting.FirstWithSymbol | MathParser/Parser/Parser.cs:213-221 | First over a partition: nothing exactly when no operator of it has the symbol, otherwise the first operator that has it |
| Splitting.KeywordPriority | MathParser/Parser/Parser.cs:209-224 | an operator keyword with a subtype gets the priority of its operator's category (0 to 11) unless the lookup throws; a keyword without an operator subtype keeps int.MaxValue |
| Splitting.ThrowPropagates | MathParser/Parser/Parser.cs:198-234 | once a lookup inside the loop throws, FindSplittingPoint throws |
| Splitting.FindSplittingPoint | MathParser/Parser/Parser.cs:191-236 | the right-to-left loop returns exactly the specified point, or the throw, and reports success exactly when the point is not negative |
| Splitting.SuffixDepthIsTokenDepth | MathParser/Parser/Parser.cs:200-207 | counting ')' up and '(' down from the right gives the same depth as counting from the left, relative to the whole |
| Splitting.StepKeepsMeaning | MathParser/Parser/Parser.cs:200-233 | one iteration keeps the meaning of the loop variables: min is the lowest priority seen at depth zero and the point holds such an operator, preferring a prefix operator further left |
| Splitting.ScanMeaning | MathParser/Parser/Parser.cs:198-234 | wherever the loop does not throw, its variables have that meaning |
| Splitting.SplittingPointIsLowest | MathParser/Parser/Parser.cs:191-236 | there is no point exactly when no top-level operator has an operator subtype; otherwise the point is a top-level operator of the lowest priority, every operator of that priority to its left is not a prefix operator, and one to its right means the point itself is a prefix operator |
| Nesting.WalkAppend | MathParser/Parser/Parser.cs:374-396 | running the loop over two pieces is running it over the first and then the second |
| Nesting.StoppedWalk | MathParser/Parser/Parser.cs:374 | once the call's closing parenthesis has taken the depth below zero the loop changes nothing |
| Nesting.GetNestedExpressions | MathParser/Parser/Parser.cs:366-401 | the method returns exactly the specified argument lists, and nothing where keyword index 2 is out of range |
| Nesting.WalkStaysWithin | MathParser/Parser/Parser.cs:374-396 | every keyword collected comes from the input, and no part grows by more than the keywords read |
| Nesting.NestedExpressionsAreShorter | MathParser/Parser/Parser.cs:366-401 | each argument list holds keywords of the call only and is at least two keywords shorter than the call, so the recursive build terminates |
| Nesting.Joined | MathParser/Parser/Parser.cs:388-391 | the inside of a call's parentheses starts with its first argument |
| Nesting.ChunkStep | MathParser/Parser/Parser.cs:376-395 | inside an argument every keyword is collected and the depth follows the parentheses |
| Nesting.WalkChunkPrefix | MathParser/Parser/Parser.cs:374-396 | reading a prefix of an argument without top-level separators collects it whole, at the prefix's depth |
| Nesting.WalkChunk | MathParser/Parser/Parser.cs:374-396 | a balanced argument without top-level separators is collected whole and the depth returns to zero |
| Nesting.SeparatorStep | MathParser/Parser/Parser.cs:388-391 | a separator at depth zero closes the part being collected and starts an empty one |
| Nesting.JoinedSplits | MathParser/Parser/Parser.cs:374-396 | reading the joined arguments is reading all but the last, then the separator, then the last |
| Nesting.WalkJoined | MathParser/Parser/Parser.cs:374-396 | reading well-formed arguments joined by separators finishes all but the last and leaves the last being collected at depth zero |
| Nesting.LastPartRestored | MathParser/Parser/Parser.cs:397-398 | appending the part being collected to the finished ones gives back all the arguments |
| Nesting.BalancedStart | MathParser/Parser/Parser.cs:368 | a balanced argument does not start with ')', so the empty-call test does not fire |
| Nesting.NestedExpressionsOfCall | MathParser/Parser/Parser.cs:366-401 | for a call "f(a1, ..., an)" whose arguments are non-empty, balanced and free of top-level separators, the nested expressions are exactly a1, ..., an |
| Building.FirstConstant | MathParser/Parser/Parser.cs:161 | Constants.First: nothing (it throws) exactly when no constant has the name, otherwise a registered constant of that name |
| Building.FirstFunction | MathParser/Parser/Parser.cs:338 | Functions.First: nothing (it throws) exactly when no function has the name and the arity, otherwise a registered function with both |
| Building.SignaturesOf | MathParser/Parser/Parser.cs:277-286 | one signature per candidate operator, in order, each the operator's output type followed by its argument types |
| Building.BuildArguments | MathParser/Parser/Parser.cs:349-359 | when no argument comes back null or throws, there is one tree per argument |
| Building.StoppedArguments | MathParser/Parser/Parser.cs:351-356 | once an argument has come back null or thrown, the later arguments change nothing: the loop returns at the first |
| Building.WhereIsSubset | MathParser/Parser/Parser.cs:277 | Where keeps only operators of the list that satisfy the predicate |
| Building.UnwrappedWithin | MathParser/Parser/Parser.cs:93 | stripping outer brackets keeps only keywords of the input |
| Building.CandidatesFit | MathParser/Parser/Parser.cs:245-267 | every operator the prefix or postfix builder may pick takes one operand and every one the infix builder may pick takes two, so each signature has one type per operand plus the output |
| Building.BuildIsSound | MathParser/Parser/Parser.cs:87-101 | a tree Build yields is ready to be typed (every operation node has signatures of its own arity) and names only arguments that occur in the keywords |
| Building.BuildOperationIsSound | MathParser/Parser/Parser.cs:180-189 | the same for BuildOperationNode |
| Building.WordsWithin | MathParser/Parser/Parser.cs:93-97 | keywords taken from the input name only arguments the input names |
| Building.UnaryNodeIsSound | MathParser/Parser/Parser.cs:288-296 | a unary node over a sound operand, with signatures of two types, is sound |
| Building.BinaryNodeIsSound | MathParser/Parser/Parser.cs:319-328 | a binary node over two sound operands, with signatures of three types, is sound |
| Building.BuildOperatorIsSound | MathParser/Parser/Parser.cs:238-267 | the same for BuildOperatorNode at any position |
| Building.BuildFunctionIsSound | MathParser/Parser/Parser.cs:331-364 | the same for BuildFunctionNode |
| Building.BuildArgumentsAreSound | MathParser/Parser/Parser.cs:349-359 | every argument tree of the loop is sound, and together they name only arguments of the call |
| Building.EmptyBracketsCrashBuild | MathParser/Parser/Parser.cs:366-368 | "()+1" throws in the build: the left operand "()" is read as a call whose third keyword does not exist |
| Parsing.ExpressionOf | MathParser/GlobalData/Types/Operation/Expression/Expression.cs:7-16 | the expression keeps its string and a consistent operation state, and installs the signature whenever it passes the guard |
| Parsing.Untyped | MathParser/Parser/Parser.cs:68-73 | with typization off the typing succeeds with no error, one argument type per argument name, and every type the default |
| Parsing.NamedArgumentsAreListed | MathParser/Parser/SyntaxAnalyzer.cs:741-748 | every argument keyword's word is one of the analyzer's argument names |
| Parsing.BuiltTreeIsReady | MathParser/Parser/Parser.cs:46-58 | a tree the build yields from the analyzer's keywords can be typed and names only the analyzer's argument names |
| Parsing.Finished | MathParser/Parser/Parser.cs:59-76 | once a tree is built nothing crashes; a failure happens only with typization on and carries errors; a success carries the formatted string and a consistent operation state |
| Parsing.ProcessFailuresCarryErrors | MathParser/Parser/Parser.cs:42-77 | every failure of Process carries at least one error, so Parse always has something to raise |
| Parsing.ParseAgreesWithTryParse | MathParser/Parser/Parser.cs:25-40 | TryParse returns (true, e) exactly when Parse returns e, returns (false, null) exactly when Parse raises, an exception escapes both or neither, and the flag says whether an expression came out |
| Parsing.TypizationOnlyAddsFailures | MathParser/Parser/Parser.cs:42-77 | switching typization on never changes a crash or an earlier failure and never turns a failure into a success: a success with it on is one with it off with the same string, and the only new failures carry typing errors |
| Parsing.TypizationKeepsEarlierOutcomes | MathParser/Parser/Parser.cs:42-77 | with typization on or off, Process crashes on the same texts, and a failure with it off is the same failure with it on |
| Parsing.TypizationKeepsParses | MathParser/Parser/Parser.cs:42-77 | a text that parses with typization on also parses with it off, to the same formatted string; a failure with it on where it off parses consists of typing errors only |
| Parsing.TypingOnlyAddsFailures | MathParser/Parser/Parser.cs:63-67 | a failure of the typing step reports typing errors only |
| Parsing.ParsedExpressionFacts | MathParser/Parser/Parser.cs:42-77 | a parsed expression means the analyzer succeeded; it carries the formatted string, the argument names are distinct, the signature (when installed) lists them in order, and with typization off every type is the default |
| Parsing.FinishedExpressionFacts | MathParser/Parser/Parser.cs:61-76 | after the build: the expression's arguments are the analyzer's argument names (when its signature is installed), and with typization off all its types are the default |
| Parsing.OperatorCharactersAreNotSpaces | MathParser/GlobalData/ParserGlobal.cs:70-73 | no operator character is whitespace |
| Parsing.SymbolsAreValid | MathParser/Parser/Parser.cs:81-82 | the symbols of a partition of well-formed operators are non-empty and free of whitespace |
| Parsing.AnalyzerSetsAreValid | MathParser/Parser/Parser.cs:79-83 | the three symbol lists CreateAnalyzer hands the analyzer are all valid symbols |
| Parsing.BuiltInOperatorsAreShaped | MathParser/GlobalData/ParserGlobal.cs:109-148 | the built-in operators have symbols of operator characters and operand counts fitting their categories |
| Parsing.RegistryIsWellFormed | MathParser/Parser/Parser.cs:20-23 | a registry with such operators and valid functions gives valid analyzer sets and a registry the builder can use |
| Parsing.Complete | MathParser/Parser/Parser.cs:59-76 | the code after the build returns exactly what the specification of that part says |
| Parsing.DefaultTypes | MathParser/Parser/Parser.cs:70-71 | the new array filled with the default type: the right length, every entry the default |
| Parsing.CopySignature | MathParser/Parser/Parser.cs:281-284 | the copy loop yields the output type followed by the first arity argument types |
| Parsing.CollectSignatures | MathParser/Parser/Parser.cs:278-286 | the foreach collects exactly one signature per candidate operator, in order |
| Parsing.CandidatesAreRegistered | MathParser/Parser/Parser.cs:277 | every operator the builders may pick has one argument type per operand |
| Parsing.OwnCollection | MathParser/Parser/Parser.cs:20-23 | the parser keeps a fresh copy of the given registry, with the same functions and constants, or the default registry, and either is one the parser can work with |
| Parsing.Parser.constructor | MathParser/Parser/Parser.cs:9-23 | a new parser owns a fresh copy of the registry, with typization and multiplication insertion on and Double as the default type |
| Parsing.Parser.Parse | MathParser/Parser/Parser.cs:25-35 | Parse returns the expression Process produced, raises the single error as it is, or wraps several in one |
| Parsing.Parser.TryParse | MathParser/Parser/Parser.cs:37-40 | TryParse returns whether Process succeeded, with the expression it produced |
| Parsing.Parser.Process | MathParser/Parser/Parser.cs:42-77 | the method returns exactly the outcome of the specification for the parser's current settings and registry |
| Parsing.Parser.CreateAnalyzer | MathParser/Parser/Parser.cs:79-83 | a fresh analyzer with no accumulated errors, the registry's constants and functions and the symbols of each operator partition |
| Parsing.Parser.GetMathCollection | MathParser/Parser/Parser.cs:15-18 | the getter hands out a fresh copy with the same functions and constants, never the parser's own registry |
| Parsing.Parser.Build | MathParser/Parser/Parser.cs:87-101 | the method builds exactly the tree (or null, or the exception) of the specification |
| Parsing.Parser.BuildValueNode | MathParser/Parser/Parser.cs:136-178 | a literal, a known constant or an argument node as specified, null for anything else |
| Parsing.Parser.BuildOperationNode | MathParser/Parser/Parser.cs:180-236 | an operator node at the splitting point, a function node when there is none, as specified |
| Parsing.Parser.BuildOperatorNode | MathParser/Parser/Parser.cs:238-267 | prefix at index 0, postfix at the last index, infix anywhere else, as specified |
| Parsing.Parser.BuildUnaryOperatorNode | MathParser/Parser/Parser.cs:269-297 | the candidates' signatures, then the operand; null when the operand is null, else the node over it |
| Parsing.Parser.BuildBinaryOperatorNode | MathParser/Parser/Parser.cs:299-329 | the candidates' signatures, then both operands in order; null when either is null, else the node over both |
| Parsing.Parser.BuildFunctionNode | MathParser/Parser/Parser.cs:331-364 | the nested expressions, the function with that name and arity (or the exception), its signature, then the arguments, as specified |
| Parsing.Parser.BuildArguments | MathParser/Parser/Parser.cs:349-359 | the loop builds each argument in turn and stops at the first null or exception, as specified |
| Typization.TypizeFrom | MathParser/Parser/Parser.cs:415-435 | the do-while loop keeps the dictionaries' keys and the tree's arguments, and when it stops without errors every node of the tree is fully typed |
| Typization.Typize | MathParser/Parser/Parser.cs:405-447 | Typization yields one type per argument name, succeeds exactly when there is no error, and falls back to the default output type on failure |
| Typization.TypizeFacts | MathParser/Parser/Parser.cs:415-435 | over the loop requirements only grow, only typing errors are reported, a fixed type is never changed, a type the loop fixes is the first one the argument's uses required, and a clean stop leaves unfixed only arguments no use required a type of |
| Typization.TypizeSettlesArguments | MathParser/Parser/Parser.cs:405-447 | every error is a typing error, and on success each argument's type is the first type its uses required, or the default type exactly when none did |
| Typization.TypizationPass | MathParser/Parser/Parser.cs:417-433 | one pass either stops where the loop's specification stops, or reports nothing, fixes at least one more argument and leaves the rest of the loop unchanged |
| Typization.TypizationLoop | MathParser/Parser/Parser.cs:414-435 | the do-while loop ends in exactly the state, tree and errors of its specification |
| Typization.ReadArgumentTypes | MathParser/Parser/Parser.cs:437-439 | one type per argument name: the type the handler fixed, or the default type |
| Typization.RunTypization | MathParser/Parser/Parser.cs:405-447 | the method returns exactly the outcome of the specification: the flag, the argument types, the output type and the errors |
| Typization.Settle | MathParser/Parser/Parser.cs:412-435 | a new handler knows every argument name, and the loop run on it ends as its specification says |
| Typization.ReadOutputType | MathParser/Parser/Parser.cs:441-445 | the tree's output type when the loop reported nothing, falling back to the default type, and the default type otherwise |
| TypizationHandler.Conflicts | MathParser/Parser/ArgumentTypizationHandler.cs:33-39 | the inner loop reports only ArgumentTypizationError for this argument |
| TypizationHandler.ConflictsIff | MathParser/Parser/ArgumentTypizationHandler.cs:33-39 | the inner loop reports nothing exactly when every requirement equals the first |
| TypizationHandler.RefreshUpTo | MathParser/Parser/ArgumentTypizationHandler.cs:28-45 | the outer loop only changes the types of existing entries |
| TypizationHandler.RefreshName | MathParser/Parser/ArgumentTypizationHandler.cs:30-44 | one iteration only changes the types of existing entries |
| TypizationHandler.RefreshUpToNext | MathParser/Parser/ArgumentTypizationHandler.cs:28-45 | each iteration of the outer loop is the step for the next name in the dictionary's order |
| TypizationHandler.RefreshNameErrors | MathParser/Parser/ArgumentTypizationHandler.cs:30-39 | an iteration adds no error exactly when the argument is already fixed or its requirements agree |
| TypizationHandler.RefreshReportsArgumentErrors | MathParser/Parser/ArgumentTypizationHandler.cs:24-48 | RefreshArgumentTypes reports only argument typization errors |
| TypizationHandler.RefreshChanges | MathParser/Parser/ArgumentTypizationHandler.cs:28-45 | an unfixed argument with a requirement is fixed to its first requirement; every other entry, in particular every fixed type, stays |
| TypizationHandler.RefreshChangedIff | MathParser/Parser/ArgumentTypizationHandler.cs:26-44 | typesChanged is set exactly when some unfixed argument had a requirement |
| TypizationHandler.RefreshErrorsIff | MathParser/Parser/ArgumentTypizationHandler.cs:24-48 | with distinct names, nothing is reported exactly when every unfixed argument's requirements agree |
| TypizationHandler.RefreshResolves | MathParser/Parser/ArgumentTypizationHandler.cs:24-48 | no argument becomes unfixed again, and when typesChanged is set strictly fewer arguments are unfixed, so Typization's do-while loop terminates |
| TypizationHandler.RefreshFacts | MathParser/Parser/ArgumentTypizationHandler.cs:24-48 | fixed types stay, a newly fixed type is the first requirement, when nothing changed every unfixed argument has no requirement, and only argument typization errors are reported |
| TypizationHandler.NoTypes | MathParser/Parser/ArgumentTypizationHandler.cs:11-17 | one entry per argument name, each unfixed |
| TypizationHandler.NoRequirements | MathParser/Parser/ArgumentTypizationHandler.cs:12-17 | one entry per argument name, each with no requirement |
| TypizationHandler.ArgumentTypizationHandler.constructor | MathParser/Parser/ArgumentTypizationHandler.cs:9-18 | every argument name (each once) starts unfixed and without requirements |
| TypizationHandler.ArgumentTypizationHandler.RequireArgumentType | MathParser/Parser/ArgumentTypizationHandler.cs:20 | the type is appended to that argument's requirements and nothing else changes |
| TypizationHandler.ArgumentTypizationHandler.ScanRequirements | MathParser/Parser/ArgumentTypizationHandler.cs:32-39 | the inner loop finds the first requirement and reports one error per later requirement that differs from it |
| TypizationHandler.ArgumentTypizationHandler.RefreshOne | MathParser/Parser/ArgumentTypizationHandler.cs:30-44 | one iteration of the outer loop does exactly what its specification says |
| TypizationHandler.ArgumentTypizationHandler.RefreshAll | MathParser/Parser/ArgumentTypizationHandler.cs:26-46 | the outer loop over all names does exactly what its specification says |
| TypizationHandler.ArgumentTypizationHandler.RefreshArgumentTypes | MathParser/Parser/ArgumentTypizationHandler.cs:24-48 | the new types, the flag and the errors are those of the specification, the method succeeds exactly when there is no error, and the requirements are untouched |
| SyntaxNodes.MakeLiteralNode | MathParser/Parser/SyntaxNode/LiteralNode.cs:5-11 | a literal node keeps its keyword and is never typed Boolean outright: it is undecided exactly when the value is 0 or 1, and Double otherwise |
| SyntaxNodes.FunctionNode | MathParser/Parser/SyntaxNode/SyntaxNode.cs:18-21 | a function node is an operation node with exactly the function's signature |
| SyntaxNodes.Filter | MathParser/Parser/SyntaxNode/OperationNode.cs:68-84 | the filter keeps, in order, only signatures it was given, never more |
| SyntaxNodes.FilterKeepsExactlyTheFitting | MathParser/Parser/SyntaxNode/OperationNode.cs:68-84 | a signature survives the filter exactly when it was in the list and matches every position the filter fixes |
| SyntaxNodes.FittingAreKept | MathParser/Parser/SyntaxNode/OperationNode.cs:68-84 | a list whose every signature fits is kept whole |
| SyntaxNodes.NoneFitting | MathParser/Parser/SyntaxNode/OperationNode.cs:68-84 | a list none of whose signatures fits is filtered to nothing |
| SyntaxNodes.FilterIsIdempotent | MathParser/Parser/SyntaxNode/OperationNode.cs:68-84 | filtering twice with the same filter changes nothing more |
| SyntaxNodes.OpenFilterKeepsAll | MathParser/Parser/SyntaxNode/OperationNode.cs:23-24 | a filter that fixes no position (no child typed yet) keeps every signature |
| SyntaxNodes.FitsOutputFilter | MathParser/Parser/SyntaxNode.cs:152-158 | a signature fits the filter SetOutputType builds exactly when its output is the given domain |
| SyntaxNodes.ValueNodesAgree | MathParser/Parser/SyntaxNode.cs:28-39 | the single class's literal and constant signatures give the same output types as the hierarchy's literal and constant nodes |
| SyntaxNodes.OutputType | MathParser/Parser/SyntaxNode/OperationNode.cs:54-66 | GetOutputType: a constant's domain, a literal's type, the handler's entry for an argument, and for an operation node a type only when every signature has it as output |
| SyntaxNodes.Narrowed | MathParser/Parser/SyntaxNode.cs:147-160 | SetOutputType keeps the node's size, arguments, keyword and children; it changes only the single class's operation node, whose signatures become exactly those with that output |
| SyntaxNodes.SetChildrenTypes | MathParser/Parser/SyntaxNode/OperationNode.cs:94-98 | one node per child, and no argument entry added |
| SyntaxNodes.SetChildrenTypesNarrows | MathParser/Parser/SyntaxNode/OperationNode.cs:94-98 | child i is narrowed to domain i, on its own |
| SyntaxNodes.SetChildrenTypesKeepsShape | MathParser/Parser/SyntaxNode/OperationNode.cs:94-98 | pushing types down keeps the children's sizes and argument names |
| SyntaxNodes.FullIsReady | MathParser/Parser/SyntaxNode/OperationNode.cs:21-52 | a fully typed node can be validated again |
| SyntaxNodes.NodeError | MathParser/Parser/SyntaxNode/OperationNode.cs:27-35 | the error of an untypable node is an operator, function or inserted-multiplication typization error |
| SyntaxNodes.Possible | MathParser/Parser/SyntaxNode/OperationNode.cs:23-24 | the signatures left after filtering by the children's types are the node's own, each with one domain per child plus the output |
| SyntaxNodes.Push | MathParser/Parser/SyntaxNode/OperationNode.cs:36-37 | pushing a single remaining signature down keeps one node per child, the argument entries, the sizes and the argument names, and leaves every child ready |
| SyntaxNodes.Validate | MathParser/Parser/SyntaxNode/OperationNode.cs:21-52 | Validate keeps the argument entries and the tree's arguments, and when it reports nothing the tree is fully typed |
| SyntaxNodes.ValidateChildren | MathParser/Parser/SyntaxNode/OperationNode.cs:100-108 | one node per child, the argument entries and names kept, and every child fully typed when nothing is reported |
| SyntaxNodes.SetChildrenTypesGrows | MathParser/Parser/SyntaxNode/OperationNode.cs:94-98 | pushing types down only appends requirements |
| SyntaxNodes.ValidateFacts | MathParser/Parser/SyntaxNode/OperationNode.cs:21-52 | Validate only appends requirements and reports only typization errors; a value node is unchanged and reports nothing; an operation node keeps its keyword and children count and its signatures are among those it had |
| SyntaxNodes.ValidateChildrenFacts | MathParser/Parser/SyntaxNode/OperationNode.cs:100-108 | validating the children only appends requirements and reports only typization errors |
| SyntaxNodes.ValidateReportsUntypableNode | MathParser/Parser/SyntaxNode/OperationNode.cs:26-45 | a node none of whose signatures fits its children's types is reported first, with its own error, and keeps no signature |
| SyntaxNodes.FilterPossibleSignatures | MathParser/Parser/SyntaxNode/OperationNode.cs:68-84 | the nested loops keep exactly the filtered signatures of the specification |
| SyntaxNodes.GetCommonOutput | MathParser/Parser/SyntaxNode/OperationNode.cs:56-65 | the loop, stopping at the first signature that differs, returns exactly the common output of the specification |
| SyntaxNodes.GetOutputType | MathParser/Parser/SyntaxNode/OperationNode.cs:54-66 | the method returns exactly the output type of the specification over the handler's types |
| SyntaxNodes.GetChildrenTypes | MathParser/Parser/SyntaxNode/OperationNode.cs:86-92 | the loop returns exactly each child's output type, in order |
| SyntaxNodes.SetOutputType | MathParser/Parser/SyntaxNode.cs:147-160 | an argument records the requirement with the handler, the single class's operation node narrows its signatures, and the handler's types do not change |
| SyntaxNodes.SetChildrenTypesOf | MathParser/Parser/SyntaxNode/OperationNode.cs:94-98 | the loop pushes domain i down to child i exactly as specified, leaving the handler's types unchanged |
| SyntaxNodes.SetChildrenTypesStep | MathParser/Parser/SyntaxNode/OperationNode.cs:96-97 | one more iteration keeps the first children as before and narrows the next one |
| SyntaxNodes.ValidateNode | MathParser/Parser/SyntaxNode/OperationNode.cs:21-52 | the method's node, requirements and errors are exactly those of the specification, it succeeds exactly when nothing is reported, and the handler's types do not change |
| SyntaxNodes.ValidateChildrenOf | MathParser/Parser/SyntaxNode/OperationNode.cs:100-108 | the foreach validates every child in order exactly as specified, gathering their errors |
| Operations.SetSourceIfValidResult | MathParser/GlobalData/Types/Operation/Operation.cs:58-73 | a signature that passes the guard (one type per argument, no repeated name, every name valid) replaces the whole state; one that fails any of the three checks leaves the state as it was |
| Operations.SetSourceIfValidKeepsValid | MathParser/GlobalData/Types/Operation/Operation.cs:7-15 | a fresh operation is valid and SetSourceIfValid keeps every operation valid, so the arity always equals the number of argument types |
| Operations.Operation.constructor | MathParser/GlobalData/Types/Operation/Operation.cs:7-15 | a fresh operation has no arguments, no argument types, a Double output and the NaN delegate |
| Operations.Operation.Arity | MathParser/GlobalData/Types/Operation/Operation.cs:53-56 | the arity is the number of argument names |
| Operations.Operation.GetArguments | MathParser/GlobalData/Types/Operation/Operation.cs:17-24 | the getter returns a fresh array holding the argument names |
| Operations.Operation.GetArgumentTypes | MathParser/GlobalData/Types/Operation/Operation.cs:32-39 | the getter returns a fresh array holding the argument types |
| Operations.Operation.SetSourceIfValid | MathParser/GlobalData/Types/Operation/Operation.cs:58-73 | the early returns and the name loop leave the operation in exactly the state the guard's specification gives |
| Operations.Operation.SetSource | MathParser/GlobalData/Types/Operation/Operation.cs:75-81 | the operation takes over the delegate, names, types and output type of the other one |
| Operations.SetSourceIfValidExamples | MathParser/GlobalData/Types/Operation/Operation.cs:60-67 | a repeated name, a count mismatch and an invalid name each leave the operation unchanged; a good signature gives arity 2 |
| Expressions.NewExpression | MathParser/GlobalData/Types/Operation/Expression/Expression.cs:7-16 | the internal constructor keeps the string and holds the given signature when it passes the guard, the initial state otherwise, and is always valid |
| Expressions.Calculation | MathParser/GlobalData/Types/Operation/Expression/Expression.cs:38-51 | a wrong argument count raises the arity mismatch; an argument outside its declared domain raises the signature mismatch; otherwise the result is the delegate applied to the arguments |
| Expressions.Calculate | MathParser/GlobalData/Types/Operation/Expression/Expression.cs:38-51 | the arity check and the loop that stops at the first argument outside its domain give exactly the specified result |
| Expressions.TryCalculation | MathParser/GlobalData/Types/Operation/Expression/Expression.cs:53-69 | a failed check yields false with result 0 |
| Expressions.TryCalculate | MathParser/GlobalData/Types/Operation/Expression/Expression.cs:53-69 | the method with its loop returns exactly the specified flag and result |
| Expressions.TryCalculateAgreesWithCalculate | MathParser/GlobalData/Types/Operation/Expression/Expression.cs:38-69 | TryCalculate succeeds exactly when Calculate does not throw, and then it yields the same value |
| Expressions.BooleanArgumentMustBeZeroOrOne | MathParser/GlobalData/Types/Operation/Expression/Expression.cs:46-48 | with one Boolean argument, 2 is a signature mismatch, 1 is accepted and no argument at all is an arity mismatch |
| Construction.RethrownParse | MathParser/GlobalData/Types/Operation/Expression/Expression.cs:22-33 | the constructors obtain the expression exactly when the parse succeeds, raise exactly when it fails (the single error, or the aggregate of several, wrapped with the text) and let a crash escape |
| Construction.ParserOrDefault | MathParser/GlobalData/Types/Operation/Expression/Expression.cs:21 | the given parser, or a fresh parser over the default registry with typization on and Double as the default type |
| Construction.ExpressionFromString | MathParser/GlobalData/Types/Operation/Expression/Expression.cs:18-36 | the result is the parse's outcome on the parser used, with its error wrapped, and the parsed expression copied whole |
| Construction.FunctionFromString | MathParser/GlobalData/Types/Operation/Function/Function.cs:178-201 | the name guards fail before any parsing; otherwise the function has the name and the parsed operation, or the parse's error wrapped, exactly as the parse turns out |
| Seqs.DistinctKeepsFirstOccurrenceOrder | MathParser/Parser/SyntaxAnalyzer.cs:748 | Distinct keeps the order of first occurrence: wherever a later kept element occurs, every earlier kept element has already occurred |
| Seqs.Distinct | MathParser/GlobalData/Types/Operation/Operation.cs:62 | Distinct keeps each element once: no repeats, nothing new, nothing lost, and never longer |
| Seqs.DistinctKeepsLengthIff | MathParser/GlobalData/Types/Operation/Operation.cs:62 | the distinct names are as many as the names exactly when no name repeats, which is what the guard's length comparison tests |
| Seqs.RemoveFirst | MathParser/Parser/MathCollection.cs:240 | List.Remove leaves a list without the object unchanged, and otherwise drops one element |
| Seqs.RemoveFirstMultiset | MathParser/Parser/MathCollection.cs:240 | List.Remove of a listed object takes exactly one occurrence of it out |
| ParserGlobal.GetLiteralCharacters | MathParser/GlobalData/ParserGlobal.cs:75-86 | the array filled by the code-point loop and the final '.' holds exactly the literal characters: the ten digits and the dot |
| ParserGlobal.GetNamingCharacters | MathParser/GlobalData/ParserGlobal.cs:88-107 | the array filled by the three code-point loops and the final '_' holds exactly the naming characters: Latin letters, digits and the underscore |
| ParserGlobal.InitializeCharacterSets | MathParser/GlobalData/ParserGlobal.cs:57-68 | the static constructor's four sets hold exactly the operator, literal, naming and valid characters, and the valid set has no repeated character |
| ParserGlobal.ValidateName | MathParser/GlobalData/ParserGlobal.cs:203-213 | a name is valid exactly when it is non-empty, made only of naming characters and does not start with a digit, which is what the pattern ^[A-Za-z_][A-Za-z0-9_]*$ accepts |
| ParserGlobal.DotIndex | MathParser/GlobalData/ParserGlobal.cs:19-20 | the index of the first '.', or the length when there is none |
| ParserGlobal.SplitIsAtDot | MathParser/GlobalData/ParserGlobal.cs:19-20 | an integer part is dot-free and a fraction part starts with the dot, so the split between the two groups can only be at the first dot |
| ParserGlobal.ValidateLiteral | MathParser/GlobalData/ParserGlobal.cs:215-228 | a literal is valid exactly when it is in the language of the Boolean pattern (when Boolean is asked for) or of the Double pattern (otherwise) |
| ParserGlobal.LiteralLanguagesNeedLiteralCharacters | MathParser/GlobalData/ParserGlobal.cs:217-222 | both patterns accept only non-empty words of literal characters, so the character loop before the match rejects nothing the patterns would accept |
| ParserGlobal.LiteralSplitIsUnique | MathParser/GlobalData/ParserGlobal.cs:19-20 | a word is in either pattern's language exactly when its split at the first dot matches the two groups |
| ParserGlobal.DoubleLiteralExamples | MathParser/GlobalData/ParserGlobal.cs:19 | "0" and "10.25" are Double literals |
| ParserGlobal.DoubleLiteralCounterExamples | MathParser/GlobalData/ParserGlobal.cs:19 | leading zeros ("007"), a trailing dot ("1.") and a missing integer part (".5") are not Double literals |
| ParserGlobal.BooleanLiteralExamples | MathParser/GlobalData/ParserGlobal.cs:20 | "1.000" is a Boolean literal, "2" and "1.01" are not |
| ParserGlobal.FractionValueBounds | MathParser/GlobalData/ParserGlobal.cs:255-258 | the digits after the point denote a value in [0, 1), and 0 exactly when they are all zeros |
| ParserGlobal.IntegerValueLowerBound | MathParser/GlobalData/ParserGlobal.cs:255-258 | digits without a leading zero denote at least 1, at least 10 when there are two or more, and the digit itself when there is one |
| ParserGlobal.LiteralIsBooleanValueIff | MathParser/GlobalData/ParserGlobal.cs:215-258 | a Double literal denotes 0 or 1 exactly when it also matches the Boolean pattern, so the Boolean pattern accepts exactly the literals a Boolean may hold |
| ParserGlobal.BooleanLiteralsAreDoubleLiterals | MathParser/GlobalData/ParserGlobal.cs:19-20 | every Boolean literal is also a Double literal |
| Domains.BooleanValuesAreDoubles | MathParser/GlobalData/ParserGlobal.cs:230-238 | a value a Boolean may hold is also a finite Double, and NaN and infinity belong to no domain |
| Naming.NameGuard | MathParser/GlobalData/Types/Constant/Constant.cs:40-43 | the guard passes exactly the valid names; a failure is the blank-name error or the invalid-name error |
| Naming.ValidIdentifiersAreNotBlank | MathParser/GlobalData/ParserGlobal.cs:203-213 | a valid name is never null or whitespace, so the two guards never both apply |
| Naming.NameGuardOrder | MathParser/GlobalData/Types/Operation/Function/Function.cs:163-166 | a blank name reports the blank-name error and any other invalid name the invalid-name error, e.g. "2x"; "x" passes |
| Text.TrimEnd | MathParser/Parser/SyntaxAnalyzer.cs:636 | the trimmed run is a prefix of the run, ends in a non-whitespace character (or is empty), and only whitespace was removed |
| Constants.Constant.constructor | MathParser/GlobalData/Types/Constant/Constant.cs:46-48 | a constant holds the given name, domain and value |
| Constants.ConstantGuard | MathParser/GlobalData/Types/Constant/Constant.cs:40-45 | the three checks pass exactly for a valid name and a value inside the domain; the name errors come before the value mismatch |
| Constants.NewConstant | MathParser/GlobalData/Types/Constant/Constant.cs:38-49 | the constructor fails exactly when a guard fails, with that guard's error, and otherwise yields a fresh constant with the given fields |
| Constants.BooleanConstantsAreZeroOrOne | MathParser/GlobalData/Types/Constant/Constant.cs:44-45 | a Boolean constant passes exactly when its value is 0 or 1; 0.5 as Boolean and NaN as Double are mismatches |
| Constants.BuiltInConstantTable | MathParser/GlobalData/ParserGlobal.cs:186-196 | there are five built-in constants |
| Constants.BuiltInConstantsPassTheGuards | MathParser/GlobalData/Types/Constant/Constant.cs:11-34 | every built-in constant passes all three guards; True is Boolean 1 and False is Boolean 0 |
| Constants.GetBuiltInConstants | MathParser/GlobalData/ParserGlobal.cs:186-196 | one fresh constant per table entry, in table order, with the entry's name, domain and value |
| Functions.Function.constructor | MathParser/GlobalData/Types/Operation/Function/Function.cs:168 | a function holds the given name and operation state |
| Functions.NewFunction | MathParser/GlobalData/Types/Operation/Function/Function.cs:156-169 | the name guard fails first with its error; otherwise the fresh function has the name and the state SetSourceIfValid gives a fresh operation |
| Functions.FunctionFromExpression | MathParser/GlobalData/Types/Operation/Function/Function.cs:203-211 | the name guard fails first with its error; otherwise the fresh function has the name and the expression's whole operation state |
| Functions.PresetState | MathParser/GlobalData/Types/Operation/Function/Function.cs:213-233 | each preset installs its default argument names and its domain unchanged (the defaults pass the guard), with one argument for the one-argument presets and two otherwise |
| Functions.BuiltInFunctionTable | MathParser/GlobalData/ParserGlobal.cs:150-184 | there are 29 built-in functions |
| Functions.ArithmeticalSignatures | MathParser/GlobalData/Types/Operation/Function/Function.cs:9-112 | every arithmetic built-in works on Doubles; Pow and Log take two arguments and every other one takes one |
| Functions.LogicalSignatures | MathParser/GlobalData/Types/Operation/Function/Function.cs:114-152 | every logical built-in works on Booleans; Not takes one argument and every other one takes two |
| Functions.PlainNameIsValid | MathParser/GlobalData/ParserGlobal.cs:203-213 | a name of Latin letters and digits that starts with a letter passes ValidateName |
| Functions.ArithmeticalNamesAreValid | MathParser/GlobalData/Types/Operation/Function/Function.cs:9-112 | every arithmetic built-in name is a valid name |
| Functions.LogicalNamesAreValid | MathParser/GlobalData/Types/Operation/Function/Function.cs:114-152 | every logical built-in name is a valid name |
| Functions.BuiltInFunctionNamesAreValid | MathParser/GlobalData/ParserGlobal.cs:150-184 | every built-in name passes the name guard, so building the table raises nothing |
| Functions.GetBuiltInFunctions | MathParser/GlobalData/ParserGlobal.cs:150-184 | one fresh function per table entry, in table order, with the entry's name and its preset's state |
| Functions.NewBuiltIns | MathParser/GlobalData/ParserGlobal.cs:150-184 | the loop creates one fresh function per entry, in order, with the entry's name and preset state |
| Functions.NewBuiltIn | MathParser/GlobalData/Types/Operation/Function/Function.cs:215-233 | a preset call on a valid name yields a fresh function with that name and the preset's state |
| Operators.Priority | MathParser/GlobalData/Types/Operation/Operator/OperatorCategory.cs:3-18 | each category's priority is its position in the enum: below 12, 0 exactly for Coalesce and 11 exactly for UnaryPostfix |
| Operators.PriorityIsInjective | MathParser/GlobalData/Types/Operation/Operator/OperatorCategory.cs:3-18 | two categories have the same priority exactly when they are the same category |
| Operators.NewOperator | MathParser/GlobalData/Types/Operation/Operator/Operator.cs:195-208 | the operator keeps its name, category and symbol, and holds the given signature when it passes the guard and the initial state otherwise |
| Operators.PresetOperandNamesAreValid | MathParser/GlobalData/Types/Operation/Operator/Operator.cs:221-254 | the presets' default operand names ("value", and "a" with "b") pass the signature guard for any types |
| Operators.PresetSignatures | MathParser/GlobalData/Types/Operation/Operator/Operator.cs:221-254 | each preset installs its output and operand types: Double to Double for the arithmetic ones, Boolean to Boolean for the logical ones, two Doubles to Boolean for a relation |
| Operators.BuiltInOperatorTable | MathParser/GlobalData/Types/Operation/Operator/Operator.cs:13-190 | there are 32 built-in operators |
| Operators.MakeOperators | MathParser/GlobalData/ParserGlobal.cs:109-148 | one operator per table entry |
| Operators.MakeOperatorsApplies | MathParser/GlobalData/ParserGlobal.cs:109-148 | each built-in operator is its entry's preset applied to the entry's name, category and symbol, in table order |
| Operators.BuiltInOperators | MathParser/GlobalData/ParserGlobal.cs:109-148 | there are 32 built-in operators |
| Operators.ApplyPresetShape | MathParser/GlobalData/Types/Operation/Operator/Operator.cs:221-254 | a preset that agrees with its category gives an operator of that category with one operand when it is unary and two otherwise |
| Operators.ArithmeticEntriesAreConsistent | MathParser/GlobalData/Types/Operation/Operator/Operator.cs:13-59 | every arithmetic entry's preset agrees with its category |
| Operators.AdditiveEntriesAreConsistent | MathParser/GlobalData/Types/Operation/Operator/Operator.cs:13-39 | the signs, the addition and the subtraction have presets that agree with their categories |
| Operators.LogicalEntriesAreConsistent | MathParser/GlobalData/Types/Operation/Operator/Operator.cs:66-112 | every logical entry's preset agrees with its category |
| Operators.LogicalConnectivesAreConsistent | MathParser/GlobalData/Types/Operation/Operator/Operator.cs:66-97 | the negations, conjunctions and disjunctions have presets that agree with their categories |
| Operators.EqualityEntriesAreConsistent | MathParser/GlobalData/Types/Operation/Operator/Operator.cs:119-156 | every equality and inequality entry, over Doubles and over Booleans, has a preset that agrees with its category |
| Operators.RelationalEntriesAreConsistent | MathParser/GlobalData/Types/Operation/Operator/Operator.cs:159-190 | the order relations and the two coalesce operators have presets that agree with their categories |
| Operators.BuiltInTableIsConsistent | MathParser/GlobalData/Types/Operation/Operator/Operator.cs:13-190 | every entry of the built-in table has a preset that agrees with its category |
| Operators.BuiltInOperatorsAreWellFormed | MathParser/GlobalData/ParserGlobal.cs:109-148 | every built-in operator has a non-empty symbol of operator characters, and one operand when unary and two otherwise |
| MathCollections.MapErrors | MathParser/Parser/MathCollection.cs:87-88 | one error per reported duplicate, in the order they were reported |
| MathCollections.DuplicateErrors | MathParser/Parser/MathCollection.cs:85-93 | the duplicate check reports nothing exactly when no key repeats in the input |
| MathCollections.KeyErrors | MathParser/Parser/MathCollection.cs:172-176 | the key loop reports nothing exactly when every input key is absent from (for an add) or present in (for a removal) the registry, and reports at most one error per input element |
| MathCollections.RemoveEach | MathParser/Parser/MathCollection.cs:285-286 | removing by reference never lengthens the list and leaves only elements that were in it |
| MathCollections.AddOne | MathParser/Parser/MathCollection.cs:130-142 | an element whose key is not registered is appended; one whose key is registered raises the conflict and changes nothing |
| MathCollections.AddRange | MathParser/Parser/MathCollection.cs:160-206 | the range is appended exactly when its keys are distinct and none is registered; otherwise the aggregate error is raised and nothing changes |
| MathCollections.RemoveOne | MathParser/Parser/MathCollection.cs:236-248 | a registered object is removed once (the list loses exactly that one occurrence); an unregistered one raises not-found and changes nothing |
| MathCollections.RemoveRange | MathParser/Parser/MathCollection.cs:266-289 | the range is removed object by object exactly when its keys are distinct and all registered; otherwise the aggregate error is raised and nothing changes |
| MathCollections.RemoveConstantRangeAsWritten | MathParser/Parser/MathCollection.cs:291-314 | the constant overload as written gets past its checks exactly when its names are distinct and none of them is registered |
| MathCollections.CreationSucceedsIffKeysDistinct | MathParser/Parser/MathCollection.cs:81-101 | the constructor raises nothing exactly when no function key (name and arity) and no constant name repeats |
| MathCollections.AddKeepsKeysDistinct | MathParser/Parser/MathCollection.cs:160-182 | appending a range of distinct unregistered keys keeps every key distinct |
| MathCollections.RemoveFirstKeepsKeysDistinct | MathParser/Parser/MathCollection.cs:236-248 | removing one object keeps the remaining keys distinct |
| MathCollections.RemoveEachKeepsKeysDistinct | MathParser/Parser/MathCollection.cs:285-286 | removing a range object by object keeps the remaining keys distinct |
| MathCollections.OutcomesKeepKeysDistinct | MathParser/Parser/MathCollection.cs:160-344 | whatever a range add or range removal does, the registry's keys stay distinct |
| MathCollections.OutcomeKeepsKeysDistinct | MathParser/Parser/MathCollection.cs:130-264 | whatever a single add or removal does, the registry's keys stay distinct |
| MathCollections.AddThenRemove | MathParser/Parser/MathCollection.cs:130-248 | removing the object a successful add appended gives the registry back |
| MathCollections.RemoveEachOfAppended | MathParser/Parser/MathCollection.cs:285-286 | removing, one by one, distinct objects that were just appended gives the list back |
| MathCollections.RemoveFirstSkips | MathParser/Parser/MathCollection.cs:240 | removal by reference passes over a prefix that does not hold the object |
| MathCollections.RemoveFirstIsFirstOccurrence | MathParser/Parser/MathCollection.cs:240 | the first occurrence of an object is the one removed |
| MathCollections.AbsentKeysAreAbsentObjects | MathParser/Parser/MathCollection.cs:172-176 | a range of distinct keys none of which is registered holds no object twice and no registered object |
| MathCollections.AddRangeThenRemoveRange | MathParser/Parser/MathCollection.cs:160-289 | removing the range a successful range add appended gives the registry back |
| MathCollections.RemoveEachOfAbsent | MathParser/Parser/MathCollection.cs:309-311 | removing by reference objects that are not registered changes nothing |
| MathCollections.RemoveConstantRangeAsWrittenRemovesNothing | MathParser/Parser/MathCollection.cs:291-314 | the constant range removal as written never removes anything |
| MathCollections.RemoveConstantRangeDiscrepancy | MathParser/Parser/MathCollection.cs:303-307 | removing a registered constant by range raises an insertion conflict as written, and empties the registry when corrected |
| MathCollections.ArithmeticalNamesAreDistinct | MathParser/Parser/MathCollection.cs:103-106 | no two arithmetic built-in functions share a name |
| MathCollections.LogicalNamesAreDistinct | MathParser/Parser/MathCollection.cs:103-106 | no two logical built-in functions share a name |
| MathCollections.ArithmeticalAndLogicalNamesDiffer | MathParser/Parser/MathCollection.cs:103-106 | no arithmetic built-in shares a name with a logical one |
| MathCollections.BuiltInFunctionNamesAreDistinct | MathParser/Parser/MathCollection.cs:103-106 | no two built-in functions share a name, so Default's duplicate check passes |
| MathCollections.BuiltInConstantNamesAreDistinct | MathParser/Parser/MathCollection.cs:103-106 | no two built-in constants share a name |
| MathCollections.ReportDuplicates | MathParser/Parser/MathCollection.cs:85-88 | FindDuplicates and the loop over what it reports produce exactly the duplicate errors |
| MathCollections.MapErrorsAppend | MathParser/Parser/MathCollection.cs:87-88 | one more reported element adds its error at the end |
| MathCollections.CollectKeyErrors | MathParser/Parser/MathCollection.cs:172-176 | the for loop with List.Exists inside produces exactly the key errors |
| MathCollections.Exists | MathParser/Parser/MathCollection.cs:132 | List.Exists answers whether some registered element has the key |
| MathCollections.RemoveAll | MathParser/Parser/MathCollection.cs:285-286 | the foreach of List.Remove calls gives exactly the one-by-one removal |
| MathCollections.AddRangeTo | MathParser/Parser/MathCollection.cs:160-182 | the body of AddRange gives exactly the specified outcome |
| MathCollections.RemoveRangeFrom | MathParser/Parser/MathCollection.cs:266-289 | the body of RemoveRange gives exactly the specified outcome |
| MathCollections.OperatorsWhere | MathParser/Parser/MathCollection.cs:19-32 | the filter keeps only operators that satisfy the category test, and no more than there were |
| MathCollections.Symbols | MathParser/Parser/MathCollection.cs:34-59 | the symbols, one per operator, in the operators' order |
| MathCollections.PartitionsCoverOperators | MathParser/Parser/MathCollection.cs:19-32 | every operator lands in exactly one of the prefix, postfix and infix partitions, and none is lost |
| MathCollections.MathCollection.constructor | MathParser/Parser/MathCollection.cs:98-100 | on keys that do not repeat, the registry holds the built-in operators and exactly the given functions and constants |
| MathCollections.MathCollection.Create | MathParser/Parser/MathCollection.cs:81-101 | the constructor raises the aggregate of all duplicate errors exactly when some key repeats, and otherwise builds a valid registry of the given arrays |
| MathCollections.MathCollection.Default | MathParser/Parser/MathCollection.cs:103-106 | the default registry is valid and holds the 29 built-in functions, the 5 built-in constants and the built-in operators |
| MathCollections.MathCollection.DistinctBuiltInFunctions | MathParser/Parser/MathCollection.cs:105 | the built-in functions have distinct keys and valid signatures |
| MathCollections.MathCollection.DistinctBuiltInConstants | MathParser/Parser/MathCollection.cs:105 | the built-in constants have distinct names |
| MathCollections.MathCollection.AddFunction | MathParser/Parser/MathCollection.cs:130-135 | the function list and the error are the specified add; constants are untouched and the registry stays valid |
| MathCollections.MathCollection.AddConstant | MathParser/Parser/MathCollection.cs:137-142 | the constant list and the error are the specified add; functions are untouched and the registry stays valid |
| MathCollections.MathCollection.TryAddFunction | MathParser/Parser/MathCollection.cs:144-150 | true exactly when the add succeeds, with the function list it gives |
| MathCollections.MathCollection.TryAddConstant | MathParser/Parser/MathCollection.cs:152-158 | true exactly when the add succeeds, with the constant list it gives |
| MathCollections.MathCollection.AddFunctionRange | MathParser/Parser/MathCollection.cs:160-182 | the function list and the error are the specified range add |
| MathCollections.MathCollection.AddConstantRange | MathParser/Parser/MathCollection.cs:184-206 | the constant list and the error are the specified range add |
| MathCollections.MathCollection.RemoveFunction | MathParser/Parser/MathCollection.cs:236-241 | the function list and the error are the specified removal by reference |
| MathCollections.MathCollection.RemoveConstant | MathParser/Parser/MathCollection.cs:243-248 | the constant list and the error are the specified removal by reference |
| MathCollections.MathCollection.TryRemoveFunction | MathParser/Parser/MathCollection.cs:250-256 | true exactly when the removal succeeds, with the function list it gives |
| MathCollections.MathCollection.TryRemoveConstant | MathParser/Parser/MathCollection.cs:258-264 | true exactly when the removal succeeds, with the constant list it gives |
| MathCollections.MathCollection.TryAddFunctionRange | MathParser/Parser/MathCollection.cs:208-220 | true exactly when the range add succeeds, with the function list it gives |
| MathCollections.MathCollection.TryAddConstantRange | MathParser/Parser/MathCollection.cs:222-234 | true exactly when the range add succeeds, with the constant list it gives |
| MathCollections.MathCollection.RemoveFunctionRange | MathParser/Parser/MathCollection.cs:266-289 | the function list and the error are the specified range removal |
| MathCollections.MathCollection.RemoveConstantRange | MathParser/Parser/MathCollection.cs:291-314 | the constant list and the error are the corrected range removal, with the not-found check the function overload has |
| MathCollections.MathCollection.TryRemoveFunctionRange | MathParser/Parser/MathCollection.cs:316-329 | true exactly when the range removal succeeds, with the function list it gives |
| MathCollections.MathCollection.TryRemoveConstantRange | MathParser/Parser/MathCollection.cs:331-344 | true exactly when the range removal succeeds, with the constant list it gives |
| MathCollections.MathCollection.Clone | MathParser/Parser/MathCollection.cs:346-349 | a fresh valid registry with the same functions and constants in the same order |
| MathCollections.MathCollection.GetFunctions | MathParser/Parser/MathCollection.cs:61-69 | a fresh array holding the registered functions in order |
| MathCollections.MathCollection.GetConstants | MathParser/Parser/MathCollection.cs:71-79 | a fresh array holding the registered constants in order |
| MathCollections.MathCollection.GetOperators | MathParser/Parser/MathCollection.cs:9-17 | a fresh array holding the operators in order |
| Duplicates.FindAll | MathParser/Parser/MathCollection.cs:118 | Array.FindAll keeps only elements of the array that have the wanted key |
| Duplicates.IndexOf | MathParser/Parser/MathCollection.cs:123 | Array.IndexOf gives the first index holding the object |
| Duplicates.FirstKeyIndex | MathParser/Parser/MathCollection.cs:118-121 | the first index whose element has the same key, at or before the given one |
| Duplicates.FindAllMembers | MathParser/Parser/MathCollection.cs:118 | every element with the wanted key is in what FindAll returns |
| Duplicates.FindAllHead | MathParser/Parser/MathCollection.cs:118-121 | the group of an element is non-empty and starts with the first element of that key |
| Duplicates.FindAllCountsTwo | MathParser/Parser/MathCollection.cs:118-119 | two indices with the same key make a group larger than one |
| Duplicates.FindAllSecond | MathParser/Parser/MathCollection.cs:119-123 | a group larger than one has a member at an index other than its first |
| Duplicates.ReportedUpTo | MathParser/Parser/MathCollection.cs:114-127 | the first n iterations report at most n elements |
| Duplicates.FirstKeyIndexOfSameKey | MathParser/Parser/MathCollection.cs:118-121 | elements with the same key have the same group head |
| Duplicates.MarkingReaches | MathParser/Parser/MathCollection.cs:122-123 | marking a group reaches exactly the later indices of that key that are an object's first occurrence |
| Duplicates.CheckedStep | MathParser/Parser/MathCollection.cs:116-117 | an iteration that finds its index already checked reports nothing and leaves the marks as they were |
| Duplicates.UncheckedReport | MathParser/Parser/MathCollection.cs:118-121 | an iteration on an unchecked index reports exactly when its group is larger than one |
| Duplicates.UncheckedStepAt | MathParser/Parser/MathCollection.cs:119-125 | after an unchecked iteration an index is marked exactly when it was marked before or the group's marking reached it |
| Duplicates.MarkGroup | MathParser/Parser/MathCollection.cs:122-123 | the inner loop marks exactly the indices IndexOf finds for the group's later members, and keeps the earlier marks |
| Duplicates.FindDuplicates | MathParser/Parser/MathCollection.cs:108-128 | the loop with its checked-index array returns exactly the specified report |
| Duplicates.DuplicatesStep | MathParser/Parser/MathCollection.cs:116-125 | one iteration extends the report and the marks to the next index |
| Duplicates.GroupsOfMoreThanOne | MathParser/Parser/MathCollection.cs:119 | a group larger than one has a second index with the same key |
| Duplicates.ReportedUpToNonEmpty | MathParser/Parser/MathCollection.cs:119-121 | once some iteration reports, the report is not empty |
| Duplicates.NoReportIffKeysDistinct | MathParser/Parser/MathCollection.cs:108-128 | FindDuplicates reports nothing exactly when no two elements share a key |
| Duplicates.NothingReportedUpTo | MathParser/Parser/MathCollection.cs:108-128 | on distinct keys no iteration reports |
| Duplicates.ReportedOfDistinctObjects | MathParser/Parser/MathCollection.cs:116-125 | for distinct objects an index is reported exactly when it heads a group larger than one |
| Duplicates.ReportedAreGroupHeads | MathParser/Parser/MathCollection.cs:108-128 | for distinct objects everything reported heads a group larger than one |
| Duplicates.ReportedOnce | MathParser/Parser/MathCollection.cs:108-128 | for distinct objects each group head is reported only once |

## Left out

- LINQ compilation (`AsLinqExpression`, `Compile` and the expression-tree
  classes) is not modelled. `Parsing.Processed` and the parser methods take
  the compilation as a parameter `compile: Node -> Source`.
- The numeric delegates of `MathSource`, `FunctionSource` and
  `OperatorSource` are not part of this model. Every built-in operation
  carries the placeholder `Operations.MathSourceDelegate`, which returns NaN.
  IEEE arithmetic and rounding are not modelled either.
- Literals denote exact decimal values. The rounding of `double.Parse` is
  not modelled. A literal `double.Parse` rejects still makes the build throw.
- The message texts of `ExceptionBuilder` are not modelled. Each builder
  is an `Errors.Error` constructor carrying the same data.
- The demo program (`MathParser.Demo/Demo.cs`) is not part of this model.
- `Parsing.Parser`: the parser carries the `MultiplicationSignInsertion`
  setting, but it has no effect. The analyser constructor in
  `SyntaxAnalyzer.cs` takes five arguments and inserts no implied
  multiplication, and the model follows that file.
- The operator table follows `Operator.cs`, which defines 32 operators
  (`DoubleEquality1`/`2` and `BooleanEquality1`/`2`). The list in
  `ParserGlobal.cs:109-148` names `DoubleEquality` and `BooleanEquality`,
  which `Operator.cs` does not declare. The model's `ParserGlobal` returns
  all 32.
- `ParserGlobal` caches the built-in arrays lazily
  (`ParserGlobal.cs:27-55`); the model builds them afresh on every call.
  The loops that fill the function and constant arrays are modelled as the
  sequences they produce.
- Syntax nodes are values (a datatype), not objects. Parent links and
  in-place mutation of children are modelled as rebuilt trees.
- The two node implementations (`Parser/SyntaxNode.cs` and the
  `Parser/SyntaxNode/` hierarchy) differ only in whether setting an
  operation node's output type narrows its signatures. The
  `SyntaxNodes.Version` parameter selects between them.
- Dictionary enumeration order is modelled as insertion order (a sequence
  of pairs).
- A dictionary lookup that would throw `KeyNotFoundException` in the
  typization handler is a precondition: the handler is only called with
  known names.
- Out-of-range indices and a `First` with no match are modelled as
  `Building.Thrown`, `Parsing.Crashed` and `Parsing.Escaped`, not as
  exception types.
- Functions inserted into a collection are required to carry a valid
  signature. The source checks this when it builds the function.
- `Array.Sort` with the length comparison is unstable. The model uses the
  deterministic `OperatorSplit.SortByLength`, which keeps the order among
  candidates of equal length.
- `Array.Fill` on the argument-type array is modelled as a sequence
  initializer.
- `Parsing.Parser.constructor`: the version argument chooses the node
  implementation (see above). Nothing else in the parser depends on it.
- `Analyzer.SyntaxAnalyzer.ValidateCharacters` appends all errors after the
  scan instead of one per iteration. The final error list is the same.
- On "a< -b" the code splits "< -" into infix `<` and prefix `-`, and
  splits "<-" as converse implication. The model follows the code, so
  "a< -b" and "a<-b" parse differently.
- `OperatorSplit.TryParseOperators`: the early return of
  `TryParseOperatorsRecoursive` for an empty candidate list is folded into
  the loop's fallback. It gives the same result.
- `Parsing.ParsedExpressionFacts`: states that the expression's signature is
  either the analyser's argument names or the initial state. It does not
  prove that the signature guard always passes for analyser-produced names.
- `Duplicates.FindDuplicates`: states the report only for arrays of
  distinct objects. For a repeated identical object the source's `IndexOf`
  finds the first copy and reports the group again; this case is not
  described.
- The model runs the corrected nested-expression rule of the first Findings
  row (`AdjacencyRules.NestedErrors`), not the source's switch
  (`AdjacencyRules.NestedErrorsAsWritten`). The two differ only on an empty
  "()" at index 0 (`AdjacencyRules.NestedRulesDifferOnlyAtStart`). On such
  input, for example "()+1", the source's analyser passes the text and the
  build then throws `IndexOutOfRangeException`
  (`Building.EmptyBracketsCrashBuild`). In the model the analyser reports
  `NestedExpressionIsRequired` instead. The members below carry this
  difference; each one is otherwise as the source.
- Analyzer.SyntaxAnalyzer.ValidateNestedExpressionsUsage: also reports "()"
  at index 0, which the source's `when i > 0` arm (SyntaxAnalyzer.cs:520)
  lets through.
- Analyzer.SyntaxAnalyzer.ValidateAdjacency: appends the corrected
  nested-expression errors, so "()" at index 0 is reported.
- Analyzer.AnalyzeKeywords: its adjacency stage is the corrected rule, so
  "()+1" fails here and passes in the source.
- Analyzer.Analyze: inherits the corrected adjacency stage; "()+1" is
  rejected where the source accepts it.
- Analyzer.SyntaxAnalyzer.RunKeywordStages: proved against AnalyzeKeywords,
  so it rejects "()" at index 0.
- Analyzer.SyntaxAnalyzer.Run: proved against Analyze, so "()+1" gives
  `NestedExpressionIsRequired` instead of passing the analyser.
- Parsing.Parser.Process: on "()+1" the outcome is a failure carrying
  `NestedExpressionIsRequired`, not the crash of the source.
- Parsing.Parser.Parse: on "()+1" raises `NestedExpressionIsRequired`; the
  source lets the `IndexOutOfRangeException` escape.
- Parsing.Parser.TryParse: on "()+1" returns false with no expression; the
  source throws `IndexOutOfRangeException`.
- Construction.ExpressionFromString: on "()+1" raises the wrapped
  `ArgumentException`; in the source the `IndexOutOfRangeException`
  escapes, because only `ArgumentException` is caught.
- Construction.FunctionFromString: the same "()+1" difference, through the
  parse it wraps.
- MathCollections.MathCollection.RemoveConstantRange: follows the corrected
  removal of the second Findings row (`MathCollections.RemoveRange`), not
  the source. For a constant that is registered, the source raises
  `ConflictOnConstantInsertion` and removes nothing
  (`MathCollections.RemoveConstantRangeAsWritten`); the model removes it and
  raises nothing. When none of the constants is registered, the source
  raises nothing and removes nothing, while the model raises the not-found
  error. So as written the source's method never removes a constant
  (`MathCollections.RemoveConstantRangeAsWrittenRemovesNothing`).
- The collection's symbol properties (`PrefixOperatorSymbols` and the like)
  are modelled by the helper `MathCollections.Symbols` over each partition.

## Findings

| source | as written | input that shows it | evidently intended | confidence | as-written member | corrected member |
|---|---|---|---|---|---|---|
| MathParser/Parser/SyntaxAnalyzer.cs:518-528 | the check for an empty "()" group is guarded by `i > 0`, so a group at index 0 is not reported | "()+1": no analyser error; the build then reads index 2 of a two-keyword call in `GetNestedExpressions` (Parser.cs:366-368) and throws, as `Building.EmptyBracketsCrashBuild` shows | every empty "()" group that is not a call's argument list is reported as an error | high (not executed) | AdjacencyRules.NestedErrorsAsWritten | AdjacencyRules.NestedErrors |
| MathParser/Parser/MathCollection.cs:303-307 | `RemoveRange(Constant[])` raises `ConflictOnConstantInsertion` when a constant to remove IS in the collection | removing [c] from a collection that holds c raises the error and removes nothing | raise for constants that are missing, and remove the ones present, as `RemoveRange` does for functions (MathCollection.cs:266-289) and as `TryRemoveRange(Constant[])` (MathCollection.cs:336-343) does | high (not executed) | MathCollections.RemoveConstantRangeAsWritten | MathCollections.RemoveRange |
