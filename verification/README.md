# Geneva's common library: models and proofs

Dafny models of the parts of Geneva's `common` library that hold state, protocols or
arithmetic, with proofs of what they are for. `dafny verify dfyconfig.toml` checks all of it.

- **Formulas** (`Decimal`, `FormulaAst`, `FormulaMachine`, `FormulaGrammar`, `FormulaSyntax`,
  `FormulaLanguage`, `FormulaSubstitution`, `FormulaMeaning`, `FormulaParser`,
  `FormulaParameters`, `FormulaTokens`, `FormulaLaws`, `FormulaNumerals`). A formula is parsed
  character by character by the five grammar rules, with ordered choice, expectation points and
  skipped white space; its tree is compiled into a flat code vector, in which a literal takes two
  cells, and run on a stack of 4096 cells. The reference is a direct evaluation of the tree, in
  which a function is the one that has the name. Reading a cell of the wrong kind, leaving the
  code and leaving the stack at either end are outcomes of the machine, so that their absence is a
  theorem. The parser is shown to accept exactly the printed texts of a grammar of text trees, and
  pasting numbers for place holders to mean the same as binding variables. The laws say what
  evaluation makes of texts, without trees and machine.
- **Bounded buffer** (`BoundedBuffer`, `BoundedContainer`, `BufferCalls`). Threads around one
  mutex and two condition variables; between any two atomic actions any other thread may act,
  sleepers may wake spuriously or by time-out, and `notify_one` comes after the mutex was
  released. The class `Container` runs the critical sections on the container; in the order of any
  run it keeps the state of the system.
- **Canvas** (`Canvas`, `CanvasTriangle`, `CanvasPicture`, `CanvasPosition`, `CanvasDecision`,
  `PpmText`, `CanvasPpm`, `CanvasRoundTrip`, `CanvasPpmLaws`). Painting a triangle in exact
  arithmetic, on positions of the plane and on the pixels of canvases of any size, and the plain
  PPM printer and its line-based reader.
- **Priority queue** (`PriorityQueue`). Sort by id, remove duplicates, sort by evaluation, cut.
- **Regression** (`Regression`). The closed forms of the regression line.
- **Containers** (`DeepCopy`, `CrossOver`, `ConversionIterator`). Copies that share no object,
  exchange of tails, and the iterator over items of a derived type.
- **Thread pool** (`ThreadPool`, `PoolTasks`). Submission by clients and by running tasks, the
  counter of tasks in flight (32 bits wide), promises, and `wait`. The class `GThreadPool` runs
  the critical sections on the pool's variables; in the order of any run it keeps the state of the
  system.
- **Shared** (`Wrappers`, `RealArithmetic`).

Numbers are `real` where the library has floating point; the transcendental functions, the
color mixing function, the text of a number and the dynamic cast are parameters.

Where the code does not do what it is for, the exact condition under which it does is proved:

- A user constant, whatever its name, has its value in front of the end of a token exactly if
  nothing else (a group, a sign, a numeral, a function) is read there and no longer name starts the
  text, or if the name is a numeral of that value, and if it does not give `e` or `pi` another
  value: the parser's own definitions come first. A name with white space in front is read as what
  is behind it (`FormulaTokens.UserConstantReachable`, `FormulaTokens.BuiltInWins`,
  `FormulaTokens.DigitInFront`). If no name holds white space or a character with a meaning of its
  own, the names that are read are the identifiers that neither a function name nor `inf` or `nan`
  in any case starts (`FormulaTokens.PlainConstantReachable`).
- Such identifiers are read everywhere exactly if no constant's name is one of them with a text
  behind it that may end a token, as `a` and `a+b` are (`FormulaTokens.ApartNamesExact`).
- A constant name that holds white space or a character with a meaning of its own adds to the
  texts that are accepted, exactly unless something else is read in its place
  (`FormulaLanguage.PlainNamesDecide`).
- The order of the entries of a parameter map decides about the formula exactly if a name is bound
  to different texts, as by the keys `x` and `x[0]` (`FormulaParameters.AnyOrderExact`,
  `FormulaParameters.KeysCollide`).
- Formulas write behind the stack exactly if evaluation reaches more cells than it has
  (`FormulaMachine.DepthIsHighWaterMark`, `FormulaMachine.DeepFormulaOverruns`): nothing in the
  code checks for this.
- A successful `try_pop` wakes a consumer instead of a producer. A buffer can deadlock exactly if
  its capacity is limited and `try_pop` may be called (`BoundedBuffer.TryPopDecides`).
- The formulas paint a triangle with a Gram determinant below 0.0000001 too large
  (`CanvasTriangle.TrianglePaintedExact`), and the bounding box then leaves out covered positions
  of the plane (`CanvasTriangle.EarlyOutsExact`). For triangles with all corners inside of the
  unit square this changes the picture on some canvas, and otherwise no picture
  (`CanvasPicture.PictureExact`; an example is `CanvasPicture.PointTriangle`). Elsewhere a larger
  determinant is still sufficient, but not necessary (`CanvasPicture.ThickSamePicture`,
  `CanvasPicture.ThinFarAway`). For every triangle, some picture changes exactly if some position
  of the unit square is covered and outside of the box (`CanvasPosition.PicturesExact`), which
  finitely many comparisons of numbers computed from the corners decide
  (`CanvasDecision.PicturesDecided`); for one without area it is so exactly if the box does not
  hold the unit square (`CanvasPosition.FlatPicturesExact`).
- Adding a batch to a partly filled queue can lose items, whatever the sorting does with equal
  evaluations (`PriorityQueue.BatchSafeIffExact`).
- `wait` can return early exactly if 2^32 tasks may be in flight at once
  (`ThreadPool.WaitExact`); in debug mode such a pool can terminate the program
  (`ThreadPool.TerminationExact`).
- A task that submits a task while a client is in `wait` blocks on the mutex that the client
  holds, and the client waits for that task: a wait can get stuck exactly if tasks may submit
  tasks (`ThreadPool.NestingDecides`). Once a client is in `wait`, it can ever return exactly if
  no task is waiting to submit another one (`ThreadPool.WaitEndsExact`).
- A void task that ends without an exception never resolves its promise
  (`ThreadPool.PromisesResolvedOnce`).
- Copying into a container that holds one object twice, or an object of the source, in a place
  that is loaded into does not separate the two. One object that is loaded into twice also gets
  the wrong content, unless its sources agree; for targets that are sources as well, it depends on
  where their content first came from. In debug mode an object on both sides of one position is an
  exception (`DeepCopy.CopyCloneableSmartPointerContainer`, `DeepCopy.AssignVector`).

## Model

| member | source | states |
|---|---|---|
| FormulaMachine.CompiledOperand | include/common/GFormulaParserT.hpp:642-714 | compiled code of any operand, in any surrounding code and on any stack: it overruns exactly when the stack has fewer free cells than evaluation reaches; otherwise it throws the first domain error of the tree, or pushes the operand's left-to-right value, with each name standing for its own function, and goes on behind itself |
| FormulaMachine.CompiledRest | include/common/GFormulaParserT.hpp:649-659 | the code of an operator chain folds its operands from the left onto the value below |
| FormulaMachine.CompiledFormula | include/common/GFormulaParserT.hpp:769-943 | a whole formula overruns exactly when evaluation reaches more cells than there are, and otherwise ends with its value as the only cell or with its first error; never a trap, a literal read as instruction, an underrun or a read behind the code |
| FormulaMachine.DepthIsHighWaterMark | include/common/GFormulaParserT.hpp:467 | every formula, also one that throws, stays on the stack if and only if the cells that its evaluation reaches are at most the number of cells; they are at most its depth, and its depth if there is no error |
| FormulaMachine.DeepFormulaOverruns | include/common/GFormulaParserT.hpp:769-772 | a right-nested sum overruns if and only if it has at least as many operators as there are cells |
| FormulaAst.ReachedIsDepth | include/common/GFormulaParserT.hpp:467 | what evaluation reaches, following only what is evaluated up to the first error, is between one cell and the depth, and is the depth without an error |
| FormulaAst.UnaryFound | include/common/GFormulaParserT.hpp:664-692 | the comparisons of a unary name with one text after the other find the function that has the name |
| FormulaAst.BinaryFound | include/common/GFormulaParserT.hpp:695-705 | the same for the binary names |
| FormulaSyntax.RoundTrip | include/common/GFormulaParserT.hpp:491-528 | parsing the printed text of any valid text tree, with any white space and parentheses, gives that tree: left-associative, products before sums, a signed numeral before a sign, cosh before cos; for any constants of which none goes on like a formula behind another one |
| FormulaLanguage.ParserIsExact | include/common/GFormulaParserT.hpp:491-528 | a text parses to a tree if and only if it is the printed text of a valid text tree with that tree, the numerals inf, infinity, nan and nan(...) in any case included |
| FormulaSyntax.ShadowedConstantFails | include/common/GFormulaParserT.hpp:521-528 | a constant whose name starts with a function name, and is not read as a numeral, makes parsing fail |
| FormulaTokens.ConstantReachable | include/common/GFormulaParserT.hpp:521-528 | a constant that the parser holds has its value if and only if its name, without white space in front, is a token that stands for that value |
| FormulaTokens.TokenExact | include/common/GFormulaParserT.hpp:521-528 | any text in front of the end of a token, among constants of any names, is read as a number if and only if, without white space in front, it is a numeral of that number, or a constant of that value where no longer constant, white space, group, sign, numeral or function is read |
| FormulaTokens.UserConstantReachable | include/common/GFormulaParserT.hpp:479-487 | a user's constant, whatever its name and those of the others, has the user's value if and only if the token that its name is read as stands for it: without white space in front, if no longer name of the user, group, sign, numeral or function is read there, or the name is a numeral of that value, and it does not give e or pi another value |
| FormulaTokens.PlainConstantReachable | include/common/GFormulaParserT.hpp:479-487 | among plain names, a user's constant without white space in front has the user's value if and only if its name is an identifier that no function name, inf or nan starts, or a numeral of that value, and does not give e or pi another value |
| FormulaTokens.ApartNamesExact | include/common/GFormulaParserT.hpp:485-487 | all constants that are such identifiers are read, whatever ends them, if and only if no constant name is one of them with a text behind it that may end a token |
| FormulaTokens.BuiltInWins | include/common/GFormulaParserT.hpp:479-487 | e and pi have the parser's own values, whatever the user gives them, if and only if no longer name of the user starts the text |
| FormulaTokens.DigitInFront | include/common/GFormulaParserT.hpp:521-528 | a constant named 2x is never read, whatever other constants there are |
| FormulaParser.GFormulaParser.ExecuteUnary | include/common/GFormulaParserT.hpp:789-926 | replaces the topmost cell, or throws outside of the domain; op_neg leaves the number that adds up to 0 with it, op_fabs the one of it and its negative that is not negative, op_floor and op_ceil the integers below and above |
| FormulaParser.GFormulaParser.ExecuteBinary | include/common/GFormulaParserT.hpp:793-837 | combines the two topmost cells, and throws exactly for a division by 0; op_max leaves one of them that is at least both, op_min one that is at most both; op_sub and op_div leave what makes the lower cell again with the upper one |
| FormulaLaws.SumLaw | include/common/GFormulaParserT.hpp:491-494 | a term in brackets behind any formula is added to its value |
| FormulaLaws.DifferenceLaw | include/common/GFormulaParserT.hpp:491-494 | or subtracted from it: sums associate to the left |
| FormulaLaws.ProductLaw | include/common/GFormulaParserT.hpp:496-497 | two formulas in brackets with * between them have the product as value |
| FormulaLaws.QuotientLaw | include/common/GFormulaParserT.hpp:808-817 | with / the quotient, or DivisionBy0 exactly for a divisor of 0 |
| FormulaLaws.PrecedenceLaw | include/common/GFormulaParserT.hpp:491-497 | a product behind a minus is computed before it is subtracted |
| FormulaLaws.FromLeftLaw | include/common/GFormulaParserT.hpp:496-497 | x / y * z is (x / y) * z |
| FormulaLaws.SignLaw | include/common/GFormulaParserT.hpp:521-525 | a minus in front of brackets changes the sign of the value |
| FormulaLaws.PlusLaw | include/common/GFormulaParserT.hpp:521-525 | a plus in front of brackets changes nothing |
| FormulaLaws.ErrorLaw | include/common/GFormulaParserT.hpp:769-943 | of two operands, the error of the one that comes first in the text is thrown |
| FormulaLaws.SpaceLaw | include/common/GFormulaParserT.hpp:409 | blanks, tabs, line feeds and the other white space between tokens change no value |
| FormulaLaws.SinLaw | include/common/GFormulaParserT.hpp:902-905 | the name sin in front of any formula in brackets gives the library's sin of its value |
| FormulaLaws.CosLaw | include/common/GFormulaParserT.hpp:864-867 | the name cos in front of any formula in brackets gives the library's cos of its value |
| FormulaLaws.TanLaw | include/common/GFormulaParserT.hpp:919-922 | the name tan in front of any formula in brackets gives the library's tan of its value |
| FormulaLaws.AtanLaw | include/common/GFormulaParserT.hpp:856-859 | the name atan in front of any formula in brackets gives the library's atan of its value |
| FormulaLaws.SinhLaw | include/common/GFormulaParserT.hpp:906-909 | the name sinh in front of any formula in brackets gives the library's sinh of its value |
| FormulaLaws.CoshLaw | include/common/GFormulaParserT.hpp:868-871 | the name cosh in front of any formula in brackets gives the library's cosh of its value |
| FormulaLaws.TanhLaw | include/common/GFormulaParserT.hpp:923-926 | the name tanh in front of any formula in brackets gives the library's tanh of its value |
| FormulaLaws.ExpLaw | include/common/GFormulaParserT.hpp:872-875 | the name exp in front of any formula in brackets gives the library's exp of its value |
| FormulaLaws.AsinLaw | include/common/GFormulaParserT.hpp:847-855 | the same for asin, and AsinInvalidRange exactly outside of [-1, 1] |
| FormulaLaws.AcosLaw | include/common/GFormulaParserT.hpp:838-846 | the same for acos, and AcosInvalidRange exactly outside of [-1, 1] |
| FormulaLaws.LogLaw | include/common/GFormulaParserT.hpp:884-892 | the same for log, and LogNegativeValue exactly for numbers that are not positive |
| FormulaLaws.Log10Law | include/common/GFormulaParserT.hpp:893-901 | the same for log10, and Log10NegativeValue |
| FormulaLaws.SqrtLaw | include/common/GFormulaParserT.hpp:910-918 | the same for sqrt, and SqrtNegativeValue exactly for negative numbers |
| FormulaLaws.FabsLaw | include/common/GFormulaParserT.hpp:876-879 | fabs gives the value or its negative, whichever is not negative |
| FormulaLaws.FloorLaw | include/common/GFormulaParserT.hpp:880-883 | floor gives an integer not above and less than 1 below |
| FormulaLaws.CeilLaw | include/common/GFormulaParserT.hpp:860-863 | ceil gives an integer not below and less than 1 above |
| FormulaLaws.MaxLaw | include/common/GFormulaParserT.hpp:823-827 | max gives one of both values that is at least both |
| FormulaLaws.MinLaw | include/common/GFormulaParserT.hpp:818-822 | min gives one of both values that is at most both |
| FormulaLaws.PowLaw | include/common/GFormulaParserT.hpp:828-832 | pow has the base first and the exponent second |
| FormulaLaws.HypotLaw | include/common/GFormulaParserT.hpp:833-837 | hypot gives the library's hypot of both values |
| FormulaLaws.StackLaw | include/common/GFormulaParserT.hpp:467 | 1+(1+(...)) with n operators has the value n + 1 for n below 4096, and runs over the stack from 4096 on |
| FormulaLaws.ConstantLaw | include/common/GFormulaParserT.hpp:521-528 | a name of letters, digits and underscores has its constant's value, unless a function name, inf or nan starts it |
| FormulaLaws.BuiltInLaw | include/common/GFormulaParserT.hpp:479-482 | e and pi have the parser's values |
| FormulaNumerals.WholeLaw | include/common/GFormulaParserT.hpp:521-522 | digits alone stand for their decimal value |
| FormulaNumerals.PointLaw | include/common/GFormulaParserT.hpp:521-522 | digits on one or both sides of a point stand for whole part and fraction |
| FormulaNumerals.ExponentLaw | include/common/GFormulaParserT.hpp:521-522 | e or E and digits behind them multiply by a power of ten, or divide by it with a minus in between |
| FormulaNumerals.WholeExponentLaw | include/common/GFormulaParserT.hpp:521-522 | the same without a point |
| FormulaNumerals.TenthsLaw | include/common/GFormulaParserT.hpp:521-522 | n, a point and one digit d stand for n + d / 10 |
| FormulaNumerals.SignedNumeralLaw | include/common/GFormulaParserT.hpp:521-522 | a sign in front of a numeral belongs to it |
| FormulaNumerals.InfinityLaw | include/common/GFormulaParserT.hpp:521-522 | inf and infinity in any case |
| FormulaNumerals.NanLaw | include/common/GFormulaParserT.hpp:521-522 | nan in any case |
| FormulaNumerals.NanTextLaw | include/common/GFormulaParserT.hpp:521-522 | nan with a text in parentheses |
| FormulaNumerals.DecimalForm | include/common/GFormulaParserT.hpp:521-522 | every numeral that starts with a digit or point is one of those above |
| FormulaNumerals.SpecialForm | include/common/GFormulaParserT.hpp:521-522 | every numeral that starts otherwise, and not with a sign, is inf, infinity or nan |
| FormulaNumerals.SignForm | include/common/GFormulaParserT.hpp:521-522 | every numeral that starts with a sign goes on as one without |
| FormulaNumerals.DigitsLaw | include/common/GFormulaParserT.hpp:521-522 | a further digit counts one, and what is in front of it ten times as much as before |
| FormulaNumerals.NatTextLaw | include/common/GFormulaParserT.hpp:745 | the text of an index, or of a number of a picture, is its decimal digits |
| FormulaLanguage.PlainNamesDecide | include/common/GFormulaParserT.hpp:485-487 | if no constant is another one with white space behind its name and the same value, the parser accepts exactly the texts of the language if and only if each constant name is an identifier, or something else is read in its place |
| FormulaLanguage.NameIsParsed | include/common/GFormulaParserT.hpp:485-487 | a constant name in whose place nothing else is read is parsed as a whole, whatever it holds |
| FormulaSubstitution.PasteAllPrints | include/common/GFormulaParserT.hpp:723-755 | textual replacement of place holders one after the other gives the printed template with each holder's first binding in its place |
| FormulaMeaning.SubstitutionMeaning | include/common/GFormulaParserT.hpp:723-755 | the pasted text parses if and only if every place holder is bound, and then means what the template means with its holders as variables, negative numbers included; for any constants of which none goes on like a formula behind another one or starts with a brace |
| FormulaMeaning.OrderDoesNotMatter | include/common/GFormulaParserT.hpp:723-755 | bindings that give each name one text bind the same in any order |
| FormulaParameters.EntriesInAnyOrder | include/common/GFormulaParserT.hpp:723-755 | maps with the same entries, which give each name one text, give the same formula in whatever order they are listed |
| FormulaParameters.AnyOrderExact | include/common/GFormulaParserT.hpp:723-755 | the order of the entries has no influence on any template if and only if some vector is empty or no name is bound to different texts |
| FormulaParameters.PlainKeysAgree | include/common/GFormulaParserT.hpp:733-749 | different keys without brackets never bind a name to different texts |
| FormulaParameters.KeysCollide | include/common/GFormulaParserT.hpp:733-749 | keys x and x[i] bind the same name, and the one listed first decides about {{x[i]}} |
| FormulaParameters.IndexLaw | include/common/GFormulaParserT.hpp:740-748 | an entry x with several values fills {{x[i]}} with value i, counted from 0 |
| FormulaParameters.SingleLaw | include/common/GFormulaParserT.hpp:736-739 | an entry x with one value fills {{x}} with it |
| FormulaParameters.SeveralLeaveLaw | include/common/GFormulaParserT.hpp:740-748 | several values leave {{x}} alone, and {{x[i]}} with an index that is too large |
| FormulaParameters.SingleLeavesLaw | include/common/GFormulaParserT.hpp:736-739 | one value leaves {{x[i]}} alone |
| FormulaParser.GFormulaParser.VisitOperand | include/common/GFormulaParserT.hpp:642-714 | appends exactly the compiled code of the operand to the code vector |
| FormulaParser.GFormulaParser.VisitExpression | include/common/GFormulaParserT.hpp:709-714 | the same for an expression, by a loop over its operations |
| FormulaParser.GFormulaParser.ReplacePlaceHolders | include/common/GFormulaParserT.hpp:723-755 | gives the formula with all entries of the map pasted, or the exception exactly when an entry has no value |
| FormulaParser.GFormulaParser.Execute | include/common/GFormulaParserT.hpp:769-943 | the loop over the code on the stack array refines the machine started on an empty stack, whatever the array held |
| FormulaParser.GFormulaParser.Evaluate | include/common/GFormulaParserT.hpp:600-630 | the result depends on the formula and the parameters alone: nothing that earlier calls left behind, failed ones included, has an influence; the exception about an empty vector comes exactly when an entry has no value |
| FormulaParser.EvaluationComputes | include/common/GFormulaParserT.hpp:600-630 | a text that parses overruns exactly when its evaluation reaches more cells than the stack has, and otherwise gives its tree's value or first error; any other text is a parse failure |
| FormulaParser.TemplateComputes | include/common/GFormulaParserT.hpp:600-630 | evaluating a template with parameters computes the template's tree with the parameters as variables, and fails to parse exactly when a holder is left over |
| FormulaParameters.ValuesComputed | include/common/GFormulaParserT.hpp:600-630 | if each value can be read back from its text, evaluating a template with parameters computes the template's tree with the values themselves as variables |
| BoundedContainer.Container.TryPushSection | include/common/GBoundedBufferT.hpp:199-218 | implements the critical section of the system: succeeds exactly when there is room, and then puts the item at the front |
| BoundedContainer.Container.PushSection | include/common/GBoundedBufferT.hpp:313-329 | implements the critical section of the system: puts the item at the front within the capacity |
| BoundedContainer.Container.TryPopSection | include/common/GBoundedBufferT.hpp:517-533 | implements the critical section of the system: takes the item at the back exactly when there is one |
| BoundedContainer.Container.PopSection | include/common/GBoundedBufferT.hpp:571-584 | implements the critical section of the system: takes the item at the back |
| BoundedContainer.Perform | include/common/GBoundedBufferT.hpp:199-218 | the sections, executed in the order of any run, keep the container equal to that of the system |
| BoundedBuffer.RunInvariant | include/common/GBoundedBufferT.hpp:313-329 | every run keeps the invariant about mutex, history, capacity and wakeups |
| BoundedBuffer.NoLostConsumerWakeup | include/common/GBoundedBufferT.hpp:571-584 | in every state of every run, if a consumer sleeps, items are no more than the wakeups under way |
| BoundedBuffer.LostProducerWakeupsBounded | include/common/GBoundedBufferT.hpp:622-643 | if a producer sleeps, free slots are no more than the wakeups under way and the successful try_pops together |
| BoundedBuffer.NoLostProducerWakeup | include/common/GBoundedBufferT.hpp:423-443 | without try_pop no producer wakeup is lost either |
| BoundedBuffer.LinearisableFifo | include/common/GBoundedBufferT.hpp:171-218 | the items popped so far followed by the container from back to front are the items pushed, in the order of locking; the capacity is kept, and each thread was told exactly what it did, so that failed calls leave no trace |
| BoundedBuffer.MutualExclusion | include/common/GBoundedBufferT.hpp:313-329 | two threads are never in critical sections at once |
| BoundedBuffer.NoDeadlock | include/common/GBoundedBufferT.hpp:423-443 | runs without try_pop never have sleepers on both condition variables and nobody else active |
| BoundedBuffer.TryPopDeadlocks | include/common/GBoundedBufferT.hpp:517-533 | for every capacity a run with try_pop that ends in such a deadlock, with an empty buffer |
| BoundedBuffer.TryPopDecides | include/common/GBoundedBufferT.hpp:530 | a buffer of any capacity can deadlock if and only if the capacity is limited and try_pop may be called |
| BoundedBuffer.UnlimitedNeverDeadlocks | include/common/GBoundedBufferT.hpp:313-329 | an unlimited buffer never deadlocks, try_pop or not |
| BufferCalls.PushLaw | include/common/GBoundedBufferT.hpp:423-443 | with room a push puts its item at the front and goes on to wake a consumer; without, try_push and a timed push that has timed out return having changed nothing, and other pushes sleep |
| BufferCalls.PopLaw | include/common/GBoundedBufferT.hpp:622-643 | from a filled buffer a pop takes the item at the back and goes on to notify; from an empty one, try_pop and a timed pop that has timed out return having changed nothing, and other pops sleep |
| BufferCalls.CallEnds | include/common/GBoundedBufferT.hpp:423-443 | in every run a call that has returned has succeeded once, with its own item; or it has done nothing, and then it does not wait or has timed out. A blocking call returns with a success only |
| BufferCalls.TimeOutEndsCall | include/common/GBoundedBufferT.hpp:622-643 | from a time-out to its thread's next call the thread never sleeps again, and its next critical section succeeds or returns having changed nothing |
| BufferCalls.LimitedCallCanEnd | include/common/GBoundedBufferT.hpp:423-443 | from every state of every run, a call that does not wait or waits for a limited time can come to its end |
| Canvas.GCanvas.Reset | include/common/GCanvas.hpp:776-790 | new dimensions and one color everywhere |
| CanvasTriangle.AddTriangle | include/common/GCanvas.hpp:864-934 | mixes red into red, green into green and blue into blue for exactly the covered pixels that are not beyond all corners on one side, and changes no other pixel; for a determinant of at least 0.0000001 the painted pixels are those in the triangle |
| CanvasTriangle.PaintsTriangle | include/common/GCanvas.hpp:912-931 | a position is covered if and only if it is a combination of the edges with coordinates of the triangle's interior |
| CanvasTriangle.CoveredExact | include/common/GCanvas.hpp:912-931 | for any triangle with an area, a position is covered if and only if its coordinates along the edges are not negative and add up to less than 1, or than 0.0000001 divided by the determinant if that is more |
| CanvasTriangle.PositionLaw | include/common/GCanvas.hpp:867-875 | pixel i of n has the position (i + 1) / n |
| CanvasTriangle.DetLaw | include/common/GCanvas.hpp:912-922 | the determinant is the square of the doubled area |
| CanvasTriangle.EarlyOutsExact | include/common/GCanvas.hpp:876-910 | no position of the plane outside the bounding box is covered if and only if the determinant is at least 0.0000001; for pixels see CanvasPosition.PicturesExact |
| CanvasTriangle.TrianglePaintedExact | include/common/GCanvas.hpp:912-931 | the covered positions are the triangle if and only if the determinant is at least 0.0000001 |
| CanvasPicture.PictureExact | include/common/GCanvas.hpp:864-934 | for a triangle with its corners inside of the unit square, the scans with and without early outs give the same picture on canvases of all sizes if and only if the determinant is at least 0.0000001 |
| CanvasPosition.PicturesExact | include/common/GCanvas.hpp:864-934 | for every triangle, the scans with and without early outs give the same picture on canvases of all sizes if and only if no position of the unit square, with its upper and right border, is covered and outside of the box |
| CanvasDecision.PicturesDecided | include/common/GCanvas.hpp:864-934 | for every triangle, wherever it lies, a predicate computed from the corners is false if and only if the scans with and without early outs give the same picture on canvases of all sizes |
| CanvasDecision.LeakDecided | include/common/GCanvas.hpp:876-931 | that predicate holds if and only if some position of the unit square is covered and outside of the box |
| CanvasDecision.FeasibleExact | include/common/GCanvas.hpp:876-931 | half planes with or without their borders have a common position if and only if the constants that two eliminations leave over have the right signs |
| CanvasPosition.FlatPicturesExact | include/common/GCanvas.hpp:864-934 | for a triangle without area no picture changes if and only if the box of its corners holds the unit square |
| CanvasPicture.ThickSamePicture | include/common/GCanvas.hpp:876-910 | for any triangle with a determinant of at least 0.0000001 the early outs change no picture |
| CanvasPicture.PointTriangle | include/common/GCanvas.hpp:876-910 | with all corners at (0.2, 0.2), a canvas of two by two pixels gets another picture |
| CanvasPicture.ThinFarAway | include/common/GCanvas.hpp:876-910 | a thin triangle outside of the unit square for which no picture of any size changes |
| CanvasPpm.ToPPM | include/common/GCanvas.hpp:521-540 | the text of header, dimensions, color depth and rows of numbers |
| CanvasPpm.LoadFromPPM | include/common/GCanvas.hpp:549-710 | canvas and exception after loading, including the canvas that is left behind when loading fails midway |
| CanvasPpm.OnlyMeaningfulLines | include/common/GCanvas.hpp:563-684 | the state-driven reader depends on the lines that are left without comments, outer white space and empty lines, and finds header, dimensions, depth and entries at their places |
| CanvasRoundTrip.CommentsInert | include/common/GCanvas.hpp:567-580 | texts with the same meaningful lines load alike |
| CanvasRoundTrip.InsertedLine | include/common/GCanvas.hpp:576-580 | inserting an empty or comment line between any two lines changes nothing |
| CanvasRoundTrip.AppendedComment | include/common/GCanvas.hpp:567-571 | appending a comment to any line changes nothing |
| CanvasRoundTrip.RoundTrip | include/common/GCanvas.hpp:521-710 | loading what was printed gives every component cut down to a multiple of 1 / MAXCOLOR at the same pixel, if and only if no dimension is 0; otherwise it fails and leaves the canvas alone |
| CanvasRoundTrip.SecondRoundTrip | include/common/GCanvas.hpp:521-710 | a second round trip changes nothing |
| CanvasRoundTrip.QuantisedNear | include/common/GCanvas.hpp:532-534 | a component loses less than one step of the color scale |
| CanvasPpmLaws.OnePixelLaw | include/common/GCanvas.hpp:521-540 | the text of a picture of one pixel, with its red, green and blue in this order |
| CanvasPpmLaws.PictureLinesLaw | include/common/GCanvas.hpp:521-540 | the text of any picture has three lines for header, dimensions and largest color value, and one line for each row of pixels |
| CanvasPpmLaws.PixelLaw | include/common/GCanvas.hpp:529-538 | the three numbers of any pixel stand in its row, and are its components times the largest color value, cut down to integers |
| CanvasPpmLaws.LinesLaw | include/common/GCanvas.hpp:558-563 | text is taken apart at line feeds |
| CanvasPpmLaws.CleanLaw | include/common/GCanvas.hpp:567-580 | of a line stays what is in front of the first #, without outer white space |
| CanvasPpmLaws.NumbersLaw | include/common/GCanvas.hpp:600-633 | numbers are separated by white space, and end at the first other character |
| CanvasPpmLaws.LoadLaw | include/common/GCanvas.hpp:583-616 | which error comes from a wrong header, number of dimensions or dimension of 0, all of which leave the canvas alone |
| CanvasPpmLaws.LoadPixelsLaw | include/common/GCanvas.hpp:632-710 | which error comes from a wrong color depth or number of entries, leaving a black canvas; otherwise each pixel has its three numbers divided by the largest color value |
| PriorityQueue.GFixedSizePriorityQueue.Best | include/common/GFixedSizePriorityQueueT.hpp:197-208 | the lowest evaluation if lower is better, the highest one otherwise; an exception exactly for the empty queue |
| PriorityQueue.GFixedSizePriorityQueue.Worst | include/common/GFixedSizePriorityQueueT.hpp:214-225 | the highest evaluation if lower is better, the lowest one otherwise; an exception exactly for the empty queue |
| PriorityQueue.GFixedSizePriorityQueue.Add | include/common/GFixedSizePriorityQueueT.hpp:255-311 | leaves distinct items in the order of their evaluations, rising if lower is better and falling otherwise, of which none is left out that has a better evaluation than one that is kept; never asks an empty queue for its worst item |
| PriorityQueue.GFixedSizePriorityQueue.AddBatch | include/common/GFixedSizePriorityQueueT.hpp:324-391 | leaves the best distinct items of the pool collected under the threshold fixed at the start |
| PriorityQueue.GFixedSizePriorityQueue.Pop | include/common/GFixedSizePriorityQueueT.hpp:397-409 | takes the best item off, or throws exactly for the empty queue |
| PriorityQueue.GFixedSizePriorityQueue.SetMaxSize | include/common/GFixedSizePriorityQueueT.hpp:454-461 | cuts off the worst items; 0 empties the queue |
| PriorityQueue.AddOneByOne | include/common/GFixedSizePriorityQueueT.hpp:255-311 | any sequence of additions keeps the queue the best of its whole history: under LowerIsBetter no item left out has a smaller evaluation than a kept one, under HigherIsBetter no larger one |
| PriorityQueue.OnlineEqualsOffline | include/common/GFixedSizePriorityQueueT.hpp:255-311 | after any additions to an empty queue its evaluations are the first ones of the history sorted offline without duplicates |
| PriorityQueue.TopIsUnique | include/common/GFixedSizePriorityQueueT.hpp:292-303 | the evaluations are determined by the history although sorting is not stable |
| PriorityQueue.BatchKeepsTop | include/common/GFixedSizePriorityQueueT.hpp:324-391 | a batch added to a full, empty, cleared or unlimited queue leaves the best of history and batch |
| PriorityQueue.BatchEqualsSingly | include/common/GFixedSizePriorityQueueT.hpp:324-391 | the same evaluations as adding the items one by one |
| PriorityQueue.UnsafeBatch | include/common/GFixedSizePriorityQueueT.hpp:340-352 | for every partly filled queue a batch that every outcome, however items of equal evaluation are sorted, gets wrong |
| PriorityQueue.BatchSafeIffExact | include/common/GFixedSizePriorityQueueT.hpp:324-391 | all batches are dealt with correctly if and only if the queue is empty, full or unlimited, and otherwise some batch is always dealt with wrongly |
| PriorityQueue.ShrinkKeepsTop | include/common/GFixedSizePriorityQueueT.hpp:454-461 | shrinking keeps the queue the best of its history |
| Regression.SquareDeviation | include/common/GCommonMathHelperFunctionsT.hpp:854-864 | the sum of squared residuals; 0 exactly for a line through all points |
| Regression.GetRegressionParameters | include/common/GCommonMathHelperFunctionsT.hpp:876-906 | the line with the least squared deviation and no other, unless all x are equal, which is exactly when the division fails; zeros for no points |
| Regression.DenominatorPositive | include/common/GCommonMathHelperFunctionsT.hpp:897-898 | n times the sum of squares less the square of the sum is positive if and only if two x differ, and otherwise 0 |
| Regression.LeastSquaresExact | include/common/GCommonMathHelperFunctionsT.hpp:854-898 | if two x differ, a line deviates less than all others if and only if its residuals sum up to 0, also when weighted with x |
| Regression.BestLineExists | include/common/GCommonMathHelperFunctionsT.hpp:897-898 | if two x differ, the closed forms give a line of least squares |
| Regression.LineRecovered | include/common/GCommonMathHelperFunctionsT.hpp:876-906 | points on one line give that line |
| Regression.DeviationLaw | include/common/GCommonMathHelperFunctionsT.hpp:860-862 | each point adds the square of its distance from a + b * x |
| DeepCopy.CopyCloneableSmartPointer | include/common/GCommonHelperFunctionsT.hpp:465-480 | empties, clones or loads so that the target has the source's content in an object of its own |
| DeepCopy.CopyCloneableSmartPointerContainer | include/common/GCommonHelperFunctionsT.hpp:491-525 | in all three size cases same length and emptiness; the same content exactly if every target and its source have origins of equal content, where targets that are later sources hand on what they were loaded with; from sources apart from the targets loaded into, exactly if targets that are one object have equal sources, and the sources are unchanged; shares no object exactly if the targets loaded into are distinct and no sources; fails exactly when in debug mode an object would be loaded from itself or an empty surplus pointer would be cloned |
| DeepCopy.AssignVector | include/common/GPtrVectorT.hpp:180-212 | succeeds exactly if no source and no remaining target is empty and, in debug mode, none is both at one position; then the content is the same, and no object is shared, exactly under the same conditions |
| DeepCopy.SettledIfAgreeing | include/common/GCommonHelperFunctionsT.hpp:491-525 | if no target loaded into is a source, the condition about origins is that targets that are one object have sources of equal content |
| CrossOver.GVector.CrossOver | include/common/GPODVectorT.hpp:404-457 | exchanges exactly the tails, item by item in front of and behind the position, for any two lengths and for a vector with itself; reports an invalid position in debug mode; a refused empty pointer leaves what was taken over in both vectors |
| CrossOver.GVector.MoveSurplus | include/common/GPtrVectorT.hpp:805-821 | moves what makes one vector longer to the other, up to the first refused item |
| CrossOver.Conserved | include/common/GPODVectorT.hpp:404-457 | the combined multiset is conserved and the lengths are exchanged |
| CrossOver.Undone | include/common/GPtrVectorT.hpp:783-824 | a second cross-over at the same position restores both vectors |
| ConversionIterator.ConversionIterator.Assign | include/common/GPtrVectorT.hpp:874-882 | goes to the first item as of a position that can be cast |
| ConversionIterator.ConversionIterator.Increment | include/common/GPtrVectorT.hpp:958-963 | leaves exactly one item behind, and stays at the end |
| ConversionIterator.Walk | include/common/GPtrVectorT.hpp:874-963 | a walk to the end terminates and visits the filtered view |
| ConversionIterator.AttachViewTo | include/common/GPtrVectorT.hpp:834-839 | appends the same filtered view |
| ConversionIterator.ViewExact | include/common/GPtrVectorT.hpp:834-839 | the view holds every item that can be cast, once and in order, and no other |
| ThreadPool.GThreadPool.StartThreadsSection | include/common/GThreadPool.hpp:247-281 | implements the start of the threads in the system: once, or an exception for zero threads or a group with entries |
| ThreadPool.GThreadPool.UncountSection | include/common/GThreadPool.hpp:331-344 | implements the decrement of the system, and tells whether the program is terminated because the counter is 0 in debug mode |
| ThreadPool.Perform | include/common/GThreadPool.hpp:247-344 | the critical sections (start of the threads, increment, decrement and the predicate of wait), executed in the order of any run, keep the pool's variables equal to those of the system |
| ThreadPool.RunInvariant | include/common/GThreadPool.hpp:237-349 | every run keeps the invariant about mutex, threads, counter, promises and waiters |
| ThreadPool.TaskAccounting | include/common/GThreadPool.hpp:282-295 | the counter is the number of tasks between increment and decrement, modulo 2^32; threads were created exactly once if there is a task |
| ThreadPool.PromisesResolvedOnce | include/common/GThreadPool.hpp:300-345 | a task no longer in flight has had its promise resolved exactly once, unless it is a void task that has not thrown |
| ThreadPool.NeverTerminated | include/common/GThreadPool.hpp:333-341 | if fewer than 2^32 tasks are in flight at any time, or outside of debug mode, the branch for a counter of 0 is not reached |
| ThreadPool.TerminationExact | include/common/GThreadPool.hpp:333-341 | the branch can be reached if and only if in debug mode and with 2^32 tasks in flight allowed |
| ThreadPool.StuckExact | src/common/GThreadPool.cpp:165-177 | while a client sleeps in wait, no worker can take a step if and only if all workers that do something wait for the submission mutex |
| ThreadPool.NeverStuck | src/common/GThreadPool.cpp:165-177 | in runs in which no task submits a task, no wait is ever stuck |
| ThreadPool.NestingDecides | include/common/GThreadPool.hpp:237-245 | for every number of threads a wait can get stuck if and only if tasks may submit tasks |
| ThreadPool.WaitEndsExact | src/common/GThreadPool.cpp:165-177 | with fewer than 2^32 tasks in flight, some continuation of a run lets a client in wait return if and only if no task is waiting to submit another one |
| ThreadPool.HeldUpForever | include/common/GThreadPool.hpp:237-245 | a task that wants to submit another one and a client in wait hold each other up in every continuation of the run |
| ThreadPool.WorkShrinks | include/common/GThreadPool.hpp:300-346 | every step of a worker leaves less to do, except that a task submits another one, so that the wait ends |
| ThreadPool.NothingSubmittedMeanwhile | src/common/GThreadPool.cpp:166-167 | while a client sleeps in wait, nothing is submitted, by clients or by tasks |
| ThreadPool.WaitMeansDone | src/common/GThreadPool.cpp:165-177 | if fewer than 2^32 tasks are in flight, wait returns only when all tasks have run and their promises are resolved |
| ThreadPool.WaitExact | include/common/GThreadPool.hpp:359 | wait can return with tasks in flight if and only if 2^32 tasks may be in flight at once |
| PoolTasks.KindsLaw | include/common/GThreadPool.hpp:237-345 | in every run the tasks are those submitted, in order, each void or not as its client or task asked for |
| PoolTasks.OnceLaw | include/common/GThreadPool.hpp:300-345 | every task is taken at most once and run at most once, and exactly once when it is no longer in flight; its promise is resolved as often as it has ended, or for a void task as often as it has thrown |
| PoolTasks.CounterLaw | include/common/GThreadPool.hpp:282-295 | the counter is the number of increments less the number of decrements, modulo 2^32 |
| PoolTasks.WorkersLaw | include/common/GThreadPool.hpp:273-276 | no more tasks are being run at a time than there are threads |
| PoolTasks.StartLaw | include/common/GThreadPool.hpp:247-281 | the first submission starts the threads; with zero threads it is refused, and the client is outside again with nothing submitted |
| PoolTasks.WaitLaw | src/common/GThreadPool.cpp:165-177 | wait returns and frees the submission mutex if and only if the counter is 0, and otherwise sleeps with it |

## Left out

- Floating point: rounding, overflow and NaN everywhere; `Gem::Common::to_string` is a parameter whose texts are assumed to be numerals, and a pasted number means what its text says.
- What the numerals `inf` and `nan` stand for: their values are parameters. The internals of Spirit and xpressive, and error messages of the grammar.
- RoundTrip: no constant name may be another readable one with a text behind it that may end a token; `FormulaTokens.ApartNamesExact` shows what such names change.
- ParserIsExact: constant names must be plain. `FormulaLanguage.PlainNamesDecide` shows that this is needed.
- The laws of `FormulaLaws` are stated for plain constant names, and leave open whether a composed formula still fits on the stack; `FormulaMachine.DepthIsHighWaterMark` tells when it does.
- PlainNamesDecide: leaves out constants whose name is that of another constant of the same value with white space behind it.
- Place holders within names of place holders: keys with braces in them are excluded, and so are place holders within other tokens.
- SubstitutionMeaning: constant names are as for RoundTrip, and none starts with a brace; plain names meet this (`FormulaMeaning.PlainIsTemplate`). Templates have no braces within a number token, as in `nan({x})`, and neither have pasted texts.
- TemplateComputes: has the conditions of SubstitutionMeaning on constant names; speaks of templates whose holders stand where a factor may stand; texts outside that form are covered by EvaluationComputes only after pasting.
- ValuesComputed: has the conditions of SubstitutionMeaning on constant names; numbers that `to_string` does not print exactly are covered by TemplateComputes, with the numbers that their texts stand for.
- `printCode` and `printStack`; `printCode_` is false throughout.
- BoundedBuffer: the copying and moving variants share one model; the destructor and the observers (`getRemainingSpace`, `size`, `empty`, `isNotEmpty`) are not part of it, nor is progress under a fair scheduler.
- WorkShrinks: progress of workers is stated as an enabled step (StuckExact), a shrinking measure and a run that ends the wait (WaitEndsExact), without a scheduler.
- `GThreadPool::setNThreads` and the destructor, and restarting of threads; the number of threads is fixed. A task that submits a task does so in one action once it owns the submission mutex. In the overload for results, notify_one is called before the counter mutex is released; the model lets other steps come in between.
- PictureExact: for triangles with corners on or outside of the border of the unit square, whether a picture changes also depends on where the triangle lies; `CanvasDecision.PicturesDecided` covers all triangles.
- EarlyOutsExact: speaks of all positions of the plane.
- Priority queue: cloning of items is not told apart from storing them; `setSortOrder`, which does not sort again, and copying of queues are left out. Sorting is modelled by a method that gives some sorted permutation.
- AddBatch: states the result for items that are equal whenever their ids are; for other items only order, distinct ids and size.
- Canvas: `std::size_t` has no upper limit; signs in front of numbers are not read; files, circles, `gmix` (a parameter), averages and differences are not modelled. Components below 0, whose conversion to a number is undefined, are excluded from printing.
- Regression: the standard errors of both parameters.
- Containers: reserve, insert, erase and the other forwarding members; `load` and `clone` are modelled by a content that they copy, and loading an object from itself by the exception of the library's own classes in debug mode.
- AssignVector: tells a failure by an empty pointer and one by a common object apart only if there is one kind; loading from an empty pointer counts as fatal without telling apart how.
- `GParserBuilder`, `GGlobalOptionsT`, `GBarrier`, `GLogger`, `GPlotDesigner`, serialization and the test hooks: wrappers, formatting or boilerplate with easy members.
