# A model of the column store and of the linter's scanners

The repository holds two independent programs, and this project models both and proves what they
are for.

**The column store** (`src/lib/storage`) keeps a table as a list of chunks of at most `chunk_size`
rows. `append` fills the last chunk, `compress_chunk` replaces the value segments of a chunk by
dictionary segments, one asynchronous task per column. Whatever mix of the two has happened, the
table reads as the plain list of appended rows.

- `Dictionary.dfy`: the dictionary, its id width, the encoding and the two bounds, on values.
- `TableData.dfy`, `TableTheorems.dfy`: tables as values, one operation and whole runs, addresses,
  `row_count`.
- `Segments.dfy`, `Tables.dfy`, `TableMatrix.dfy`: segments, chunks and tables as objects that the
  methods change in place, each method proved against the values above; the reading of a table
  that the tests compare by.
- `TableRun.dfy`: a whole run on a table object, from the empty table to the matrix it is read into.
- `Schedule.dfy`: `compress_chunk` as a protocol between the caller and its tasks.
- `LoadTable.dfy`: splitting lines and loading a table from a file.

**The linter** (`cpplint.py`) matches brackets over lines and tracks nesting.

- `Brackets.dfy`: the reference, a matcher for three bracket kinds without heuristics, and the
  Dyck grammar. `Text.dfy` and `Lines.dfy` hold the string tests and the flat text of a file.
- `Marking.dfy`: what the scanners take each character of a line for. `Angles.dfy`: the reference
  for angle brackets, a count of the angles open outside all other brackets.
- `ForwardScan.dfy`, `BackwardScan.dfy`: the scanners with all their heuristics; the backward one
  is the forward one on the mirrored text.
- `ForwardTheorems.dfy`, `BackwardTheorems.dfy`: what they compute for round, square and curly
  brackets, and that they are inverse. `ForwardAngles.dfy`, `BackwardAngles.dfy`,
  `AnglePromises.dfy`: what they compute for angle brackets, and exactly when that is not what they
  promise.
- `AngleDrift.dfy`, `AngleInverse.dfy`, `AngleRoundTrips.dfy`: exactly when the two directions undo
  each other on angle brackets, first by counting from both sides, then by the kinds of marks, then
  on the lines of a file. `AngleExamples.dfy`: lines for each way in which they do not.
- `TextInside.dfy`, `TemplateArgs.dfy`: two users of bracket matching.
- `Preprocessor.dfy`, `NestingState.dfy`: saved and restored nesting stacks, on values and on
  block objects.
- `Comments.dfy`, `IncludeOrder.dfy`, `ErrorCounts.dfy`: comment removal, include order, filters
  and counters.

Readings of the code that the theorems rest on:

- A column type is any strict total order with a total cast (`Types`), so without NaN and without
  casts that throw. `std::set`, `std::find`, `std::lower_bound` and `std::upper_bound` are given by
  what they return.
- `(int)log2(n)` is the integer floor of the logarithm. For an empty segment the program converts
  the logarithm of zero to an integer; the model takes that integer as the parameter `logOfZero`
  and holds for every value of it.
- An operation that throws gives `None`, or `ok == false`; the contracts say what it leaves behind.
- `upper_bound` is the first id with a greater value, as the code has it; its comment speaks of a
  smaller one. `set` of the attribute vector inserts; the comment in `src/lib/storage/fixed_size_attribute_vector.hpp`
  says that it sets.
- The class comment of `_IncludeState` speaks of an exception for a wrong order; the code returns
  a message, and so does the model.
- `CloseExpression` promises to close the `<` it is given. For a `<` that is the second of a shift
  or follows `operator` it returns the end of the next bracket or angle on the line instead, if that
  has one; `EndIsMissedExactly` proves that the result is wrong there and nowhere else
  (`ShiftResult`). It is not even just past a `>` around a bracket word exactly where that next one
  is a round, square or curly bracket (`PromiseIsBrokenExactly`, `BrokenPromiseExample`).
  `ReverseCloseExpression` fails in the mirrored way for a `>` that is part of an arrow, a comparison
  or an operator name (`StartIsMissedExactly`, `BackPromiseIsBrokenExactly`).
- On angle brackets the two directions are not inverse (`AnglesAreNotInverse`), because they skip
  different operators. `Ordinary` names the angles that they treat alike: a `<` that does not follow
  `operator` and starts no row of three or more, and a `>` that belongs to an arrow or is an operator
  for both or for neither; all others, such as a comparison ` >= `, break every round trip that they
  stand in outside brackets (`ClosedAngleIsOpened`, `OpenedAngleIsClosed`). The one exception is a
  `>` two columns after `operator`, which may make up for another one (`LateMayCancel`); with such a
  `>` in between, `ClosedAngleByCounts` is the exact condition.
- The comment in cpplint.py:1519 says that the forward scan ignores operator functions. The code looks
  one column too far to the left: the `>` of `operator>` counts, and one that stands a column later
  does not (`OperatorGreater`, `AfterOperator`).
- A line `/*/` starts a multi-line comment and ends it as well.

## Model

| member | source | states |
|---|---|---|
| Brackets.StepsAreInverse | cpplint.py:1481-1515 | reading a bracket from right to left undoes reading it from left to right, and conversely, for every stack |
| Brackets.CloseFromMeaning | cpplint.py:1479-1541 | a forward matcher started under an open bracket ends at q exactly when q is its closer and the text in between runs the rest of the stack down to nothing |
| Brackets.OpenFromMeaning | cpplint.py:1604-1662 | the mirror image for the backward matcher |
| Brackets.MirrorIsBalanced | cpplint.py:1588-1662 | a word is balanced exactly when it is, read from right to left with its brackets turned around |
| Brackets.OpenFromIsMirrored | cpplint.py:1588-1662 | the backward matcher of a text is the forward matcher of the mirrored text |
| Brackets.MatchersMeet | cpplint.py:1544-1700 | forward from p finds q, and backward from q finds p, exactly when p and q enclose a balanced typed word |
| Brackets.BalancedIsDyck | cpplint.py:1466-1541 | a word that a bracket stack accepts is exactly a word of the Dyck grammar with three bracket kinds |
| Text.OperatorMeaning | cpplint.py:1492 | the test for a preceding `operator` keyword is the regular expression: something that does not end inside a word, the word, then only space |
| Text.OperatorTail | cpplint.py:1614-1618 | a text that ends in the operator keyword ends in no bracket, so skipping its last character skips no bracket |
| Marking.MarkMeaning | cpplint.py:1480-1538 | which characters open, close, shift or end a statement for the forward scan, in terms of the characters before them and of the regular expression |
| Marking.BackMarkMeaning | cpplint.py:1605-1660 | the same for the backward scan, a `<` opening exactly if it is the first of an odd row |
| Marking.SkipsMeaning | cpplint.py:1484-1497 | which angles each scan skips, in the same terms |
| Marking.SkippedIsPlain | cpplint.py:1614-1618 | the character skipped together with a `>` is nothing that the scanner would take notice of |
| Angles.PlainMatch | cpplint.py:1479-1541 | where no angle is open, the reference with angles is the plain matcher, whatever the marks |
| Angles.AngleMatcherMeaning | cpplint.py:1479-1541 | the reference closes an angle at b exactly when b is a closing mark, the brackets up to b are balanced, and b is the first place that leaves no angle open outside them, with no `;` before it there |
| Angles.FourKindsClose | cpplint.py:1479-1541 | an angle followed by a word of the grammar with all four bracket kinds and a closing mark is closed at that mark |
| ForwardScan.EndTurn | cpplint.py:1480-1538 | the body of the loop with its early exits does what one step of the scan does |
| ForwardScan.FindEndOfExpressionInLine | cpplint.py:1466-1541 | the loop with its early returns computes the scan of one line from a carried stack |
| ForwardScan.PopOperators | cpplint.py:1503-1504 | popping pending angle brackets leaves what is below them |
| ForwardScan.CloseStarts | cpplint.py:1565-1571 | the call fails at once on `<<`, `<=` and what opens nothing, and on no other character without a scan |
| ForwardScan.CloseExpression | cpplint.py:1544-1585 | the carried stack over the lines of a file; line, number of lines and -1 when nothing closes |
| ForwardScan.TurnIsRead | cpplint.py:1480-1538 | every turn does to what is open on the stack what the reference does; angle marks above a bracket decide nothing |
| ForwardScan.CloseIsMatch | cpplint.py:1571-1585 | with anything open, the scan over lines with its carried stack finds what the reference finds |
| ForwardScan.MatchOnFlat | cpplint.py:1571-1585 | the reference over lines is the reference on the flat text, for any spread over lines |
| ForwardTheorems.HeuristicsNeverMatter | cpplint.py:1466-1585 | from a parenthesis, bracket or brace the scan over lines succeeds, fails and ends exactly where the plain matcher of the flat text does |
| ForwardTheorems.CloseMeansMatched | cpplint.py:1544-1585 | a result past (m, q) means exactly that the two positions enclose a balanced typed word of one kind |
| ForwardAngles.AngleMeaning | cpplint.py:1544-1585 | from a `<` taken for an opener the result is past q if and only if q is the one `>` that closes it: brackets balanced in between, the first place that leaves no angle open outside them, no `;` before it there |
| ForwardAngles.AngleCompleteness | cpplint.py:1544-1585 | if the text up to a `>` is a word with all four kinds of brackets, that `>` is found |
| ForwardAngles.SkippedAngleMeaning | cpplint.py:1484-1497 | from a skipped `<` the result is past q if and only if q closes the first bracket or opening angle after it on its line, nothing else being taken notice of before |
| ForwardAngles.AngleSoundness | cpplint.py:1544-1585 | from a `<` that is not skipped, a result lies just past a `>` and the brackets in between are a Dyck word |
| ForwardAngles.PromiseIsBrokenExactly | cpplint.py:1544-1585 | the conclusion of the previous row fails if and only if the `<` is skipped and the first thing taken notice of after it on the line is a round, square or curly bracket that is closed |
| ForwardAngles.BrokenPromiseExample | cpplint.py:1489-1491 | in `class operator<(a)` the `<`, which the caller in line 2395 asks about, is reported as closed by the parenthesis |
| BackwardScan.FindStartOfExpressionInLine | cpplint.py:1588-1662 | the loop that moves left, sometimes by two columns, computes the backward scan of one line |
| BackwardScan.ReverseCloseStarts | cpplint.py:1682-1687 | the call fails at once on what closes nothing, and scans from everything else |
| BackwardScan.StartTurn | cpplint.py:1605-1660 | the body of the loop, which moves left by one or two columns, does what one step of the scan does |
| BackwardScan.ReverseCloseExpression | cpplint.py:1665-1700 | the carried stack over the lines above; line 0 and -1 when nothing opens |
| BackwardScan.TurnIsMirrored | cpplint.py:1605-1660 | every turn is a turn of the forward scan on the mirrored character and stack; a column passed over would not have counted |
| BackwardScan.OpenIsMatch | cpplint.py:1688-1697 | with anything open, the scan over the lines above finds what the reference finds from right to left |
| BackwardScan.MatchOnMirror | cpplint.py:1688-1697 | the reference from right to left over lines is the reference on the mirrored flat text |
| BackwardTheorems.BackwardHeuristicsNeverMatter | cpplint.py:1588-1700 | from a closing parenthesis, bracket or brace the backward scan starts exactly where the plain matcher of the flat text does |
| BackwardTheorems.ReverseCloseMeansMatched | cpplint.py:1665-1700 | a result (l, p) means exactly that the two positions enclose a balanced typed word of one kind |
| BackwardTheorems.ForwardAndBackwardInverse | cpplint.py:1544-1700 | closing from (l, p) gives the place after (m, q) if and only if reverse closing from (m, q) gives (l, p) |
| BackwardTheorems.RoundTrips | cpplint.py:1544-1700 | there and back again from either end, for any lines and any spread over lines |
| BackwardAngles.AngleBackMeaning | cpplint.py:1665-1700 | from a `>` taken for a closer the result is p if and only if p is the one `<` that opens it, in the text read from right to left |
| BackwardAngles.AngleBackCompleteness | cpplint.py:1665-1700 | if the text back to a `<` is a word with all four kinds of brackets, that `<` is found |
| BackwardAngles.SkippedGreaterMeaning | cpplint.py:1614-1618 | from a skipped `>` the result is p if and only if p opens the first bracket or closing angle before it on its line, nothing else being taken notice of after that |
| BackwardAngles.BackwardAngleSoundness | cpplint.py:1665-1700 | from a `>` that is not skipped, a result is at a `<` and the brackets in between are a Dyck word |
| BackwardAngles.BackPromiseIsBrokenExactly | cpplint.py:1665-1700 | the conclusion of the previous row fails if and only if the `>` is skipped and the first thing taken notice of before it on the line is a round, square or curly bracket that is opened |
| BackwardAngles.BrokenBackPromiseExample | cpplint.py:1614-1618 | in `f(a) operator>b` the `>`, which the caller in line 3280 asks about, is reported as opened by the parenthesis |
| AngleExamples.AnglesAreNotInverse | cpplint.py:1614-1618 | an input for the next rows: `< >= ` is closed forwards and not opened backwards, so their condition on comparisons cannot be dropped |
| AngleDrift.DriftDecides | cpplint.py:1479-1700 | for any marks of a text: an angle closed at b is opened again from b if and only if the counts from both sides have not drifted apart over the whole text, and nowhere by as much as there are angles open |
| AngleDrift.DriftDecidesForwards | cpplint.py:1479-1700 | the same for an angle opened from b that is to be closed there |
| AngleInverse.DriftBound | cpplint.py:1479-1700 | marks on which both directions agree never drift, and with no late `>` all others drift the same way |
| AngleRoundTrips.ClosedAngleIsOpened | cpplint.py:1544-1700 | an angle closed at q is found again from q if and only if q and every angle bracket in between, outside brackets, is ordinary; only `>` two columns after `operator` are excluded in between |
| AngleRoundTrips.OpenedAngleIsClosed | cpplint.py:1544-1700 | an angle opened from q is closed at q if and only if it may open, and it and every angle bracket in between, outside brackets, is ordinary |
| AngleRoundTrips.AnglesInverse | cpplint.py:1544-1700 | where both ends count for both scanners and everything in between is ordinary, closing from p gives the place after q if and only if reverse closing from q gives p |
| AngleRoundTrips.ClosedAngleByCounts | cpplint.py:1544-1700 | without any condition on what is in between: an angle closed at q is found again from an unskipped q if and only if the counts from both sides meet |
| AngleExamples.OneAngleIsLost | cpplint.py:1544-1700 | every line with two angles and, as the only bracket in between or as the last one, an angle that is not ordinary: closed at its end and not found again |
| AngleExamples.OperatorLess | cpplint.py:1492-1494 | `<operator<b>` is such a line: the `<` of an operator name counts backwards only |
| AngleExamples.OperatorGreater | cpplint.py:1519-1522 | `<operator>` is such a line: the `>` of an operator name counts forwards only |
| AngleExamples.InnerAngleIsLost | cpplint.py:1544-1700 | the same with an inner angle whose end is not ordinary |
| AngleExamples.Comparison | cpplint.py:1614-1618 | `<a<b >= c>` is such a line: the comparison counts forwards only |
| AngleExamples.RowOfThreeIsLost | cpplint.py:1484-1497 | the same with a row of three in between |
| AngleExamples.ThreeInARow | cpplint.py:1484-1497 | `<a<b<<<c>` is such a line |
| AngleExamples.LateMayCancel | cpplint.py:1519-1522 | lines that are closed at their end and found again, though two of the angles in between are not ordinary: the `>` two columns after `operator` have to be excluded above |
| AngleExamples.TwoEndsExample | cpplint.py:1519-1522 | `< <operator+> >= >` is such a line |
| AnglePromises.EndIsMissedExactly | cpplint.py:1544-1585 | a result for a `<` is not the place that closes this very `<` if and only if the `<` is skipped and the first bracket or opening angle taken notice of after it on the line is closed |
| AnglePromises.SkippedMissesItsEnd | cpplint.py:1484-1497 | a skipped `<` never gets its own end: there is no result, or it is another one's |
| AnglePromises.StartIsMissedExactly | cpplint.py:1665-1700 | a result for a `>` is not the place that opens this very `>` if and only if the `>` is skipped and the first bracket or closing angle taken notice of before it on the line is opened |
| AnglePromises.SkippedMissesItsStart | cpplint.py:1614-1618 | a skipped `>` never gets its own start |
| AngleExamples.ShiftResult | cpplint.py:1484-1497 | after a shift, the second `<` gets the end of a third one, which is just past a `>` around a bracket word |
| AngleExamples.ShiftExample | cpplint.py:1484-1497 | `<< <a>` is such a line |
| TextInside.GetTextInside | cpplint.py:4498-4551 | the stack of expected closers returns the text up to the closer of the plain matcher, or nothing |
| TextInside.InsideMeaning | cpplint.py:4498-4551 | what is extracted is exactly the text between the bracket and the one that matches it |
| TextInside.TwoMatchersAgree | cpplint.py:1466-1541 | the text extractor and the line scanner agree on every text, found or not, and what is extracted is a Dyck word |
| TemplateArgs.CloseAdvances | cpplint.py:1571-1585 | a closing position lies strictly after the bracket it closes |
| TemplateArgs.MatchToken | cpplint.py:2364-2370 | the token expression matches up to the first of the characters `{};=[].<>`, else up to the last character of the line |
| TemplateArgs.InTemplateArgumentList | cpplint.py:2351-2401 | the loop ends on every text and gives the verdict that reading character by character gives |
| TemplateArgs.VerdictMeaning | cpplint.py:2361-2401 | on every text the verdict is true exactly when template arguments follow each other from the given place on, each `<` the first token after the one before and ended as `AngleMeaning` and `SkippedAngleMeaning` say, and the first token after them is one of `>=[].` |
| TemplateArgs.VerdictOfPlainText | cpplint.py:2361-2401 | where no `<` follows, the verdict is true exactly when the first token of the remaining flat text is one of `>=[].` |
| Preprocessor.DirectiveMeaning | cpplint.py:2424-2443 | a line counts as #if, #else or #endif exactly when it is space, `#`, space and one of the keywords if, ifdef, ifndef, respectively else, elif, respectively endif, as a whole word |
| Preprocessor.LiveLine | cpplint.py:2424-2457 | one line of a first branch keeps the full run and the run that skips `#else` branches related |
| Preprocessor.DeadLine | cpplint.py:2424-2457 | one line of an `#else` branch does so too, whatever it does to the live stack |
| Preprocessor.RunsStayRelated | cpplint.py:2403-2457 | the relation holds after every run, at any nesting |
| Preprocessor.BranchesDoNotInterfere | cpplint.py:2403-2457 | for every file and every per-line step, both runs end with the same stack and pp_stack if and only if the file does not end in an `#else` branch |
| Preprocessor.WellNestedFiles | cpplint.py:2403-2457 | well-nested files end so, with an empty pp_stack |
| Preprocessor.ElseBranchesAreInvisible | cpplint.py:2413-2419 | two per-line steps that differ only on lines of `#else` branches leave the same final state |
| Preprocessor.FinalStackIsKept | cpplint.py:2413-2419 | unless the file ends in an `#else` branch, its final stack is what the lines outside `#else` branches alone make of the empty stack, each applied once and in order |
| Preprocessor.ElseGoesBack | cpplint.py:2438-2439 | at any nesting, in any run: a line with `#else` or `#elif` is read with the stack before the `#if` it belongs to |
| Preprocessor.LineIsSeen | cpplint.py:2424-2457 | which stack every line is read with: at `#else` the one before its `#if`, at `#endif` the one before the first `#else` of its `#if`, everywhere else, stray directives included, the one the line before left |
| NestingStates.DeepCopy | cpplint.py:2427 | copies of a stack are new blocks with the same contents |
| NestingStates.NestingState.UpdatePreprocessor | cpplint.py:2403-2457 | on block objects: the contents change as specified and live and saved stacks never share a block |
| NestingStates.NestingState.PushIf | cpplint.py:2424-2427 | `#if` saves a deep copy |
| NestingStates.NestingState.RememberElse | cpplint.py:2431-2436 | the first `#else` remembers a deep copy of the stack up to it |
| NestingStates.NestingState.RestoreStack | cpplint.py:2438-2439 | `#else` restores a deep copy of the stack before `#if` |
| NestingStates.NestingState.LeaveIf | cpplint.py:2443-2454 | `#endif` hands the remembered blocks over without a copy, which is safe because nothing else refers to them |
| NestingStates.NestingState.ChangeStack | cpplint.py:2484-2622 | the rest of an update, overwriting blocks in place, never reaches a saved stack |
| NestingStates.NestingState.Update | cpplint.py:2460-2482 | one line |
| NestingStates.NestingState.UpdateFile | cpplint.py:5825-5827 | all lines: the stack of objects before each line and the one each line is read with are as `LineIsSeen` says; at the end the objects are as the value run says, and as the run that skips `#else` branches unless the file ends in one |
| Comments.FindNextMultiLineCommentStart | cpplint.py:1311-1319 | the first line from lineix on that opens a comment it does not close |
| Comments.FindNextMultiLineCommentEnd | cpplint.py:1322-1328 | the first line from lineix on that ends a comment |
| Comments.RemoveMultiLineCommentsFromRange | cpplint.py:1331-1336 | exactly the lines of the range become the dummy |
| Comments.RemoveMultiLineComments | cpplint.py:1339-1352 | the loop terminates, computes the line-by-line removal, and reports the unterminated comment |
| Comments.OnlyCommentsChange | cpplint.py:1339-1352 | a line changes only to the dummy and only inside a comment from its start to its first end, also where a comment is open at the beginning |
| Comments.CommentsBecomeDummies | cpplint.py:1339-1352 | every line from the start of a comment to its first end becomes the dummy |
| Comments.RemovalIsExact | cpplint.py:1339-1352 | a line becomes the dummy if it is inside a comment that ends, and stays as it is otherwise |
| Comments.StartMeaning | cpplint.py:1311-1319 | a line starts a comment exactly when it is blanks, `/*` and a rest without `*/` |
| Comments.EndMeaning | cpplint.py:1322-1328 | a line ends a comment exactly when it is anything, `*/` and blanks |
| Comments.RemovedText | cpplint.py:1311-1352 | with these tests: exactly the lines from one that starts a comment to the first one from there that ends it become `/**/` |
| Comments.UnterminatedText | cpplint.py:1346-1350 | the line reported is the first that starts a comment which no later line ends; none is reported exactly when there is no such line |
| Comments.NothingLeft | cpplint.py:1339-1352 | afterwards no line starts a comment, up to the one that never ends |
| Comments.Idempotent | cpplint.py:1339-1352 | a second run changes nothing and reports the same, for any tests under which the dummy opens no comment |
| Comments.RemovalIsIdempotent | cpplint.py:1311-1352 | the same for the tests of the program |
| IncludeOrder.IncludeState.ResetSection | cpplint.py:713-729 | section and last header are reset; the list of includes grows, or its last part is emptied, by directive |
| IncludeOrder.IncludeState.CheckNextIncludeOrder | cpplint.py:770-821 | the next section and an empty message, or one of the three messages there are and an unchanged section; when the last header is forgotten |
| IncludeOrder.SectionsNeverDecrease | cpplint.py:671-677 | between resets the section never decreases and stays in range |
| IncludeOrder.OrderIsExact | cpplint.py:770-821 | from any section: no error exactly when the kinds follow the rest of the pattern |
| IncludeOrder.IncludeOrderTheorem | cpplint.py:770-821 | from a reset: no error exactly when the kinds split as own* C* C++* (own or other)* |
| IncludeOrder.CheckIncludes | cpplint.py:770-821 | the headers of a section checked one by one on the object: no message exactly when the kinds follow the pattern, and the section they end in |
| ErrorCounts.Head | cpplint.py:903 | the part of a category before its first slash |
| ErrorCounts.CppLintState.IncrementErrorCount | cpplint.py:898-906 | one more error, and one more for the category in the counting style |
| ErrorCounts.CppLintState.ShouldPrintError | cpplint.py:1135-1160 | printed exactly when no NOLINT stands against the category in the file, the category on the line or all categories on the line, it is confident enough, and the last filter that applies is not a minus |
| ErrorCounts.CppLintState.Error | cpplint.py:1163-1186 | only printed errors are counted, and afterwards the counts by category sum to the error count, unless only the total is counted |
| ErrorCounts.CppLintState.CountsAgree | cpplint.py:893-906 | in every state that a reset and any errors with fixed counting style lead to, the counts by category sum to the error count |
| ErrorCounts.CountsAddUp | cpplint.py:893-906 | after any run with fixed counting style the per-category counts sum to the number of errors |
| ErrorCounts.CppLintState.CountsAreOccurrences | cpplint.py:898-906 | the count of a category is the number of errors of exactly that category, respectively of those whose part before the first slash it is |
| ErrorCounts.CppLintState.TotalCountsNoCategory | cpplint.py:898-906 | without a counting style by category only the total is counted |
| ErrorCounts.TopLevelIsSumOfDetailed | cpplint.py:898-906 | a top-level count is the sum of the detailed counts below it |
| Dictionary.EmplaceIsInsertion | src/lib/storage/dictionary_segment.hpp:42-44 | inserting keeps the set sorted and adds exactly the value |
| Dictionary.DistinctIsSortedSet | src/lib/storage/dictionary_segment.hpp:36-50 | the dictionary is strictly increasing and holds exactly the values that occur |
| Dictionary.LogBelow | src/lib/storage/dictionary_segment.hpp:52 | the floor of the logarithm is below k exactly for numbers below 2^k |
| Dictionary.WidthIsSmallest | src/lib/storage/dictionary_segment.hpp:52-61 | the width is the smallest of 1, 2, 4 bytes in which all ids fit and differ from the truncated INVALID_VALUE_ID; refused exactly when none is |
| Dictionary.RoundTrip | src/lib/storage/dictionary_segment.hpp:33-69 | every row reads back as it was, through both casts |
| Dictionary.EncodingIsSmallest | src/lib/storage/dictionary_segment.hpp:33-69 | of the encoding itself: one dictionary entry per different value, each of them used, ids of 1, 2 or 4 bytes as the number of values requires and no wider; refused exactly when no width fits |
| Dictionary.SmallSegmentsAreNeverRefused | src/lib/storage/dictionary_segment.hpp:59-61 | fewer than 2^32 rows are never refused |
| Dictionary.BoundsEmbedOrder | src/lib/storage/dictionary_segment.hpp:98-122 | for all six comparisons and every search value a row satisfies it exactly when its id compares with the bounds, also for INVALID_VALUE_ID |
| Dictionary.BoundsAreFirst | src/lib/storage/dictionary_segment.hpp:96-122 | each bound is the first id whose value is not less, respectively greater; INVALID_VALUE_ID exactly when there is none |
| Segments.ValueSegment.Append | src/lib/storage/value_segment.cpp:22-25 | the cast value is added at the end |
| Segments.FixedSizeAttributeVector.Set | src/lib/storage/fixed_size_attribute_vector.hpp:24-26 | inserts the narrowed id and moves later ids up |
| Segments.MakeDictionarySegment | src/lib/storage/dictionary_segment.hpp:33-69 | set, vector, width and attribute vector as built by the loops are the encoding that `RoundTrip` and `EncodingIsSmallest` are about |
| Segments.Chunk.AddSegment | src/lib/storage/chunk.cpp:17 | one more column |
| Segments.Chunk.Append | src/lib/storage/chunk.cpp:19-27 | each column gets its value; at the first dictionary segment it throws, columns before it having been appended to |
| Segments.Chunk.Length | src/lib/storage/chunk.cpp:33 | the length of the first column, cut to 32 bits |
| TableData.AppendRefines | src/lib/storage/table.cpp:68-74 | append adds exactly the cast row, keeps the partition, and throws only for a compressed chunk that is not full |
| TableData.CompressKeepsRows | src/lib/storage/table.cpp:108-127 | compressing a chunk keeps every cell, and each column is sorted by its own type and as small as can be; it can fail only for a chunk without rows |
| TableData.CompressRefines | src/lib/storage/table.cpp:108-127 | compress_chunk changes no row and no address |
| TableTheorems.WholeRun | src/lib/storage/table.cpp:68-127 | after any interleaving of append and compress_chunk the table reads as the rows taken, cast and in order, and its partition is intact |
| TableTheorems.AllRowsKept | src/lib/storage/table.cpp:68-127 | if only full chunks are compressed, these are all the rows given |
| TableTheorems.NewTableIsSound | src/lib/storage/table.cpp:39-52 | a new table with columns has no rows and an intact partition |
| TableTheorems.RowIsAtItsAddress | src/lib/storage/table.cpp:68-74 | row k sits in chunk k / chunk_size at offset k % chunk_size |
| TableTheorems.AddressesKeepOrder | src/lib/types.hpp:40-52 | the order and equality of RowIDs are those of rows |
| TableTheorems.ScansByIds | src/lib/storage/dictionary_segment.hpp:98-122 | in every compressed column of every table that a run reaches, all six comparisons with any value can be made on value ids |
| TableTheorems.RowCountIsExactBelow32Bits | src/lib/storage/table.cpp:81-83 | row_count is the number of rows modulo 2^32, so it is right exactly below 2^32 rows |
| Tables.Table.constructor | src/lib/storage/table.cpp:39-42 | one empty chunk |
| Tables.Table.AddColumn | src/lib/storage/table.cpp:44-52 | one more column in the schema and in the chunk |
| Tables.Table.BuildChunk | src/lib/storage/table.cpp:54-66 | a new chunk with one empty segment per column type |
| Tables.Table.Append | src/lib/storage/table.cpp:68-74 | on objects: the specified table, or the unchanged one where it throws, also for a table without columns |
| Tables.Table.RowCountIsNumberOfRows | src/lib/storage/table.cpp:81-83 | on objects: row_count is the number of rows modulo 2^32, and equal to it exactly below 2^32 rows |
| Tables.Table.RunTasks | src/lib/storage/table.cpp:112-118 | one result per column, for the segment and the type of that column |
| Tables.Table.Collect | src/lib/storage/table.cpp:120-123 | the new chunk in column order, or the first exception |
| Tables.Table.CompressChunk | src/lib/storage/table.cpp:108-127 | on objects: the specified table, or the unchanged one where it throws |
| TableMatrix.TableToMatrix | src/test/base_test.cpp:33-56 | below 2^32 rows the matrix holds exactly the rows; every cell is written once and nothing outside |
| TableMatrix.CopyColumn | src/test/base_test.cpp:48-50 | one column of a chunk, each of its cells written once, no other cell touched |
| TableRun.PerformAll | src/lib/storage/table.cpp:68-127 | a table object after any operations is the table that the run on values gives |
| TableRun.RunAndRead | src/test/base_test.cpp:33-56 | any interleaving of append and compress_chunk on a new table, read into the matrix: it holds the rows taken, cast and in order, all rows given if only full chunks are compressed, every cell written once |
| Schedule.StepKeepsInv | src/lib/storage/table.cpp:112-126 | every action of the caller or of a task keeps that task i holds column i of the old chunk and its result, if there, is the encoding of it, and that the table is the old one up to the replacement |
| Schedule.OldChunkUntilPublished | src/lib/storage/table.cpp:120-126 | in every schedule the table shows the old chunk until the replacement and then the whole new one |
| Schedule.NothingAfterPublish | src/lib/storage/table.cpp:120-126 | after the replacement no task starts or ends any more |
| Schedule.NeverStuck | src/lib/storage/table.cpp:120-123 | a call that has neither returned nor thrown can go on |
| Schedule.SchedulesAreBounded | src/lib/storage/table.cpp:112-126 | every schedule ends |
| Schedule.CompleteSchedules | src/lib/storage/table.cpp:112-126 | a schedule of n columns has at most 4n + 1 steps, and one that cannot go on has returned or thrown |
| Schedule.ScheduleDoesNotMatter | src/lib/storage/table.cpp:108-127 | whenever the call has returned or thrown, whatever tasks are still to start or to end, the table is the sequentially compressed one, or the old one where a task throws |
| LoadTable.SplitString | src/lib/utils/load_table.hpp:12-23 | the tokens of repeated getline |
| LoadTable.SplitUndoesJoin | src/lib/utils/load_table.hpp:12-23 | splitting joined fields gives them back exactly when no field holds the delimiter and the last is not empty |
| LoadTable.JoinUndoesSplit | src/lib/utils/load_table.hpp:12-23 | joining a split text restores it up to one trailing delimiter |
| LoadTable.LoadTable | src/lib/utils/load_table.cpp:12-32 | the table built from the text of a file: names, types, and in every cell the token in its place, cast to its column's type |
| LoadTable.ShortFiles | src/lib/utils/load_table.cpp:16-19 | a file of one line: without a newline at its end the types are a copy of the names, with one there are none |
| LoadTable.LoadUndoesRender | src/lib/utils/load_table.cpp:16-31 | loading the text of rendered rows gives back names and types, and in every cell the field in its place, cast to its column's type, if no field holds a bar or a newline and no last field is empty |

## Left out

- ForwardAndBackwardInverse: about round, square and curly brackets; for angle brackets it is false as it stands, and `ClosedAngleIsOpened`, `OpenedAngleIsClosed` and `ClosedAngleByCounts` say exactly when it holds.
- NestingState.ChangeStack: what a line does to the stack after the preprocessor step (classes, namespaces, braces, asm blocks) is an arbitrary function of line number and stack, not the regular expressions of the program.
- NestingState: `previous_stack_top`, which only remembers one live block, is not a field of the model.
- MakeDictionarySegment: the finished segment is a value, since nothing changes it any more; that its parts are shared pointers is not captured.
- CompressChunk: compressing a chunk twice dereferences a null pointer in the program and is excluded; so are 65536 columns or more.
- Append: a row whose length differs from the number of columns is excluded, as the debug assertion of the program does.
- TableTheorems.WholeRun: tables without columns are excluded, which count no rows at all, and so is `chunk_size` 0: with it every row gets a chunk of its own behind an empty first one, and `row_count` stays at 1.
- LoadTable: opening the file; `chunk_size` 0; a file with fewer types than names, which the program reads out of bounds, or with data lines of the wrong number of fields, which its debug assertion rejects.
- ScheduleDoesNotMatter: tasks share nothing but the segments they read, which nobody changes during the call; a segment is therefore a value, not a shared pointer.
- Tables.Table.AddColumn: only before the first row, which is what the program documents.
- Table scans, `GetTable`, reference segments: only headers exist; the facts a scan needs are those about the bounds.
- Storage manager, table wrapper, operators, printing, memory estimates, assertion macros: plumbing with easy facts only.
- Raw strings, quote collapsing, style checks, NOLINT parsing, path handling, options and message output of the linter: lists of patterns, or input and output.
- `IsInAlphabeticalOrder` and `FindHeader` of the include state: single look-ups.
