# GraphEq core in Dafny

GraphEq is a graphing calculator. The user types formulas such as
`y = sin(x) / x`. A lexer and a precedence-climbing parser turn each formula
into an expression tree. The tree is simplified by constant folding and
evaluated at every horizontal canvas position. A curve builder joins the
samples into polylines and cuts them where the function is missing or jumps.
An axis renderer picks a power-of-two unit for the graduations and enumerates
the ticks.

This project models that core as pure Dafny functions over immutable values:

- `doubles.dfy`: module `Doubles`, an abstract IEEE double. It is a finite
  real, NaN or a signed infinity, with exact arithmetic and IEEE comparisons.
  Module `MathLib` is a parameter that carries the transcendental functions.
- `booleans.dfy`: module `Booleans`, the calculator's truth encoding. True is
  1 and False is NaN.
- `lexer.dfy` and `lexer_facts.dfy`: modules `Lexer` and `LexerFacts`.
  - The token pattern is scanned by hand.
  - `InitializeToken` classifies each match.
  - The lexer's mutable cursor becomes a sequence of immutable lexer states.
- `operators.dfy`: module `Operators`, the precedence enum, negation and the
  binary-operator table.
- `intrinsics.dfy`: modules `Intrinsics` and `Constants`, the intrinsic
  function table and the named constants.
- `expr.dfy` and `expr_facts.dfy`: modules `Expressions` and
  `ExpressionFacts`.
  - One `Expr` datatype stands for the constant, variable, unary, binary,
    ternary, intrinsic-call and user-call classes.
  - It has `Eval`, `IsConstant`, `Simplify` and `IsEquivalent`.
- `parser.dfy` and `parser_facts.dfy`: modules `Parser` and `ParserFacts`.
  - Both parsers share one algorithm, selected by a `Dialect`.
  - `Classic` is `Parser.cs`, which resolves variables through a callback.
  - `Positional` is `ExpressionParser.cs`, which binds names to parameter
    positions and returns the simplified tree.
- `curve.dfy`: module `Curves`, the `CurveBuilder` state machine
  (Empty / Pending / InFigure) and the sampling loop.
- `axis.dfy`: module `Axes`, the axis unit and tick enumeration.

The main results:

- Simplification preserves the value under every environment, is idempotent,
  and leaves the parser's output unchanged.
- Equivalence is exactly structural equality on trees without a NaN constant.
- The lexer's tokens are consistent and ordered. A tokenization without an
  error token loses nothing but spaces and a final line feed.
- The parsers build well-formed trees whose variables are in scope. On any
  chain of numbers joined by binary operators, the parse is the unique tree
  in which no operand binds more loosely than its parent and equal
  precedences group to the left. So a chain of one precedence, `^`
  included, folds to the left.
- The curve builder emits only figures of consecutive, joined samples, and
  draws every joined pair of samples.
- The axis unit puts graduations between 50 and 100 canvas units apart below
  a scale of 800, and never below 50.
- The ticks are exactly the nonzero multiples of the spacing that cover the
  visible range.

Some behaviour of the code is worth stating outright:

- `ToBool` treats both infinities as true, because `IsRealNumber` rejects
  only NaN.
- `^` folds to the left like every other operator, so `2^3^2` is 64.
- The curve builder samples every whole canvas x. It does not sample
  adaptively.
- The curve builder converts back to canvas y with `+scale`; no flip is
  applied in `GetY`.
- There is no `%` token. The operator table has a `Percent` row, but the
  lexer's symbol set has no `%`.
- The error messages are the code's wording.

## Model

| member | source | states |
|---|---|---|
| Booleans.FromBool | Expr.cs:44-50 | true is encoded as 1 and false as NaN |
| Booleans.ToBool | Expr.cs:48-51 | a value is true exactly when it is not NaN and not zero, so both infinities are true |
| Booleans.ToBoolFromBool | Expr.cs:44-51 | decoding the encoding of a truth value gives it back |
| Booleans.FromBoolRange | Expr.cs:44-50 | a truth value is always 1 or NaN, and it is 1 exactly when true |
| Booleans.TruthOfSpecialValues | Expr.cs:49-51 | both infinities are true; zero and NaN are false |
| Doubles.NaNComparesFalse | BinaryExpr.cs:117-146 | every ordered comparison and equality with a NaN operand is false, and inequality is true |
| Doubles.Trichotomy | BinaryExpr.cs:127-146 | two non-NaN values are less, equal or greater, and exactly one of those |
| Lexer.SpaceRun | Lexer.cs:90 | the pattern's leading ` *` consumes the maximal run of spaces and nothing else |
| Lexer.IdentifierLength | Lexer.cs:84 | an identifier starts exactly where a letter or underscore stands, and spans the maximal run of letters, digits and underscores after it |
| Lexer.MatchAt | Lexer.cs:89-96 | a match attempted at a position starts there and lies inside the input; at the end of input the pattern always matches, and on a final line feed it matches the empty end-of-input group there, as `$` does |
| Lexer.Search | Lexer.cs:71 | the search returns the leftmost match at or after the start position: the pattern fails at every position before it, and it is the match the pattern makes at its own index; it fails exactly when it starts past the end, since `$` matches at the end |
| Lexer.NextMatch | Lexer.cs:79 | the next match is the leftmost one from where the previous match stopped (one further after an empty match): the pattern fails at every position in between; a failed match has no successor |
| Lexer.TryParse | Lexer.cs:115-122 | a lexeme has a number value exactly when it is, as a whole, a number lexeme |
| Lexer.InitializeToken | Lexer.cs:98-146 | a gap before the match makes an error token spanning the gap; a failed match makes an error token at 0; otherwise the token spans the matched group: a number group is a Number valued by `TryParse` of its lexeme, or an Error when that fails; an identifier group is an Identifier; a symbol group is a Symbol carrying `CharToSymbol` of its first two characters; only the end group gives None |
| Lexer.TokensFrom | Lexer.cs:76-81 | advancing from a consistent state reaches exactly one terminal token, the last one, and it names no symbol |
| Lexer.Tokens | Lexer.cs:61-81 | the tokens of any input end in exactly one end-of-input or error token |
| Lexer.StartIsConsistent | Lexer.cs:68-73 | setting the input yields a consistent lexer state |
| Lexer.InitializeKeepsConsistent | Lexer.cs:98-146 | classifying a match that lies after the previous token keeps the state consistent |
| Lexer.AdvanceKeepsConsistent | Lexer.cs:76-81 | advancing keeps the state consistent, on the same input, and never moves backwards; a non-terminal token ends strictly later |
| Lexer.NextMatchAfter | Lexer.cs:79 | the next match after a non-empty match starts at or after its end |
| LexerFacts.OnlySpacesSkipped | Lexer.cs:90 | the characters a match skips before its group are all spaces |
| LexerFacts.TabIsNotSkipped | Lexer.cs:90 | a tab is not whitespace to the lexer: no match starts at it |
| LexerFacts.NumberAndIdentifierDisjoint | Lexer.cs:83-84 | a number lexeme starts with a digit or a dot, so it never competes with an identifier |
| LexerFacts.SymbolLexemes | Lexer.cs:85 | the length of a symbol lexeme for each leading character; the bar and the ampersand only come doubled, and `%` is no symbol |
| LexerFacts.TokenPredicates | Lexer.cs:52-53 | having a token means a number, identifier or symbol; having an error means the error kind; these are the non-terminal tokens |
| LexerFacts.CharToSymbolTwoCharacter | Lexer.cs:179-181 | `!`, `<` and `>` name their two-character symbol exactly when `=` follows |
| LexerFacts.CharToSymbolFirstCharacter | Lexer.cs:164-185 | every other symbol depends on the first character only |
| LexerFacts.SymbolLexemeNamesSymbol | Lexer.cs:127-133 | every symbol lexeme maps to a named symbol |
| LexerFacts.SymbolGroupNamesSymbol | Lexer.cs:127-133 | a symbol token produced by the pattern always names a symbol |
| LexerFacts.InitializeTokenResets | Lexer.cs:98-146 | each token starts from a clean slate: exactly the symbol tokens name a symbol, only numbers and errors carry a value other than NaN, and characters skipped before a match form an error token spanning exactly that gap |
| LexerFacts.TokensFromConsistent | Lexer.cs:76-81 | every state reached by advancing is consistent |
| LexerFacts.TokensFromOrdered | Lexer.cs:76-81 | each token starts at or after the end of the one before it |
| LexerFacts.TokensOrdered | Lexer.cs:61-81 | the tokens of any input are consistent and in input order |
| LexerFacts.MatchSkipsSpaces | Lexer.cs:89-96 | a match skips only spaces before its token, and the end-of-input alternative matches only at the end of the input or just before a final line feed |
| LexerFacts.AdvanceSkipsSpaces | Lexer.cs:76-81 | the token after the current one, unless it is an error, follows it after nothing but spaces; an end-of-input token stands at the end of the input or just before a final line feed |
| LexerFacts.StartSkipsSpaces | Lexer.cs:68-73 | the first token, unless it is an error, is preceded by nothing but spaces |
| LexerFacts.TokensFromSkipSpaces | Lexer.cs:76-81 | between consecutive tokens of a stream lie only spaces, unless the later token is an error |
| LexerFacts.TokensFromEndAtEnd | Lexer.cs:76-96 | an end-of-input token reached by advancing stands at the end of the input or just before a final line feed |
| LexerFacts.TokensSkipOnlySpaces | Lexer.cs:61-81 | the whole stream: spaces before the first token and between tokens, and the end-of-input token at the end of the input or just before a final line feed |
| LexerFacts.NothingButSpacesLost | Lexer.cs:105-114 | when no token is an error, every character of the input is a space, a final line feed, or inside a token, so any other skipped character surfaces as an error token |
| LexerFacts.TrailingLineFeedEndsInput | Lexer.cs:89-96 | the input `x` followed by a line feed reads as the identifier and an end-of-input token at position 1, with no error token |
| LexerFacts.NumberLexemeShape | Lexer.cs:83 | a number lexeme starts with a digit or a point, ends with a digit, and is not followed by a digit |
| LexerFacts.IntegerLexemeValue | Lexer.cs:115-122 | a lexeme of digits alone is a number whose value is those digits read in base ten |
| LexerFacts.FractionLexemeValue | Lexer.cs:115-122 | a lexeme `a.b` of two digit strings, with digits after the point, is a number of value a + b / 10^len(b) |
| LexerFacts.MantissaValue | Lexer.cs:83 | a lexeme that is all mantissa, with the point after its leading digits, has the whole part plus the scaled fraction as its value |
| LexerFacts.ExponentLexemeValue | Lexer.cs:115-122 | a lexeme `a e ±b` of digit strings has the value a scaled by ten to the signed power b |
| LexerFacts.NumberLexemeParses | Lexer.cs:115-122 | the lexeme the number group matches is read whole by `TryParse`, which gives its exact decimal value, so the parse-failure error never arises |
| LexerFacts.NumberMatchIsNumberToken | Lexer.cs:106-122 | a number match right after the previous token becomes a Number token whose text is the lexeme and whose value is the lexeme's decimal value |
| LexerFacts.NumberTokenValue | Lexer.cs:115-122 | every Number token of an input carries `TryParse` of its own text, and a token of digits alone carries their base-ten value |
| Operators.ApplyUnary | UnaryExpr.cs:37-41 | negation negates finite values, keeps NaN, and swaps the two infinities in both directions |
| Operators.NegationInvolutive | UnaryExpr.cs:37-41 | negating twice gives back the value, NaN and both infinities included |
| Operators.PrecedenceStrictlyOrdered | BinaryExpr.cs:6-17 | the precedence levels are strictly ordered from None to Atomic and distinct |
| Operators.OperatorTablePrecedences | BinaryExpr.cs:75-147 | each operator has the precedence of its row, strictly between None and the prefix level |
| Operators.BooleanOperatorsYieldOneOrNaN | BinaryExpr.cs:107-146 | logical and comparison operators yield only 1 or NaN |
| Operators.LogicalOperatorsTruth | BinaryExpr.cs:107-116 | logical or and logical and are true exactly when the disjunction or conjunction of their operands' truth holds |
| Operators.ComparisonsWithNaN | BinaryExpr.cs:117-146 | a comparison with a NaN operand is true only for `!=` |
| Operators.OperatorForSymbols | BinaryExpr.cs:75-147 | every operator except remainder has a symbol that selects it; remainder has none |
| Intrinsics.LookupIn | ExpressionParser.cs:216-227 | lookup returns a function of the table with that name, and fails exactly when no entry has it |
| Intrinsics.AbsD | FunctionExpr.cs:264-268 | abs is NaN exactly for NaN, non-negative with the same magnitude for finite values, and +inf for the infinities |
| Intrinsics.MaxD | FunctionExpr.cs:269-273 | max is NaN when either argument is; otherwise it is one of them and not below either |
| Intrinsics.MinD | FunctionExpr.cs:274-278 | min is NaN when either argument is; otherwise it is one of them and not above either |
| Intrinsics.RoundHalfEven | FunctionExpr.cs:279-283 | round is within one half of its argument and breaks ties to the even integer |
| Intrinsics.CeilReal | FunctionExpr.cs:289-293 | ceil is the least integer not below its argument |
| Intrinsics.ClampD | FunctionExpr.cs:316-319 | with bounds in order and x not NaN, clamp lies between them; x inside the range is kept, x below min gives min, x above max gives max, and NaN stays NaN |
| Intrinsics.ClipD | FunctionExpr.cs:320-323 | clip yields x inside the range and NaN outside |
| Intrinsics.InRangeD | FunctionExpr.cs:324-327 | in_range is true exactly when x lies in the closed range |
| Intrinsics.NameInjective | FunctionExpr.cs:187-314 | no two intrinsics share a name |
| Intrinsics.LookupByName | ExpressionParser.cs:216-227 | looking up a function's name finds that function, and only its name finds it |
| Intrinsics.ClampClipInRange | FunctionExpr.cs:316-327 | with real bounds in order, clamp lands in the range; inside it clamp and clip both give x; outside, clip is NaN and clamp moves x |
| Intrinsics.RoundingFixesIntegers | FunctionExpr.cs:279-298 | round, floor, ceil and trunc fix integers, NaN and both infinities |
| Constants.Lookup | ConstExpr.cs:34-42 | a name has a constant exactly when it is one of the six names |
| Constants.NamedConstantValues | ConstExpr.cs:27-42 | each named constant has its value; True is 1 and False is the same value as NaN |
| Expressions.ConstantIffNoVariables | FunctionExpr.cs:28-39 | an expression is constant exactly when it reads no variable |
| Expressions.ChangedArgs | FunctionExpr.cs:44-80 | the simplified arguments are returned exactly when at least one differs from the original |
| Expressions.Simplify | BinaryExpr.cs:43-59 | simplification keeps the tree well formed; a constant node other than a conditional becomes a constant; any other node keeps its kind and its operator, intrinsic or body, with as many children |
| ExpressionFacts.SimplifyRebuilds | UnaryExpr.cs:26-32 | a node that does not fold keeps its operator, intrinsic or body, and each child is replaced by its own simplification |
| ExpressionFacts.EvalReadsOnlyScope | Expr.cs:64 | an expression's value depends only on the variables it reads |
| ExpressionFacts.ConstantHasOneValue | Expr.cs:22-25 | a constant expression has the same value under every environment |
| ExpressionFacts.SimplifyKeepsScope | FunctionExpr.cs:114-128 | simplification neither adds nor removes variable reads |
| ExpressionFacts.SimplifyKeepsConstancy | UnaryExpr.cs:19-33 | simplification keeps an expression constant exactly when it was |
| ExpressionFacts.SimplifyPreservesEval | BinaryExpr.cs:43-59 | a simplified expression has the same value as the original under every environment |
| ExpressionFacts.SimplifyFolds | FunctionExpr.cs:155-169 | after simplification no constant subtree remains unfolded outside conditionals |
| ExpressionFacts.FoldedIsFixpoint | TernaryExpr.cs:26-40 | simplification leaves a folded tree unchanged |
| ExpressionFacts.SimplifyIdempotent | Expr.cs:27-33 | simplifying twice is the same as simplifying once |
| ExpressionFacts.EquivalentIffEqualWithoutNaN | ConstExpr.cs:18-21 | two trees are equivalent exactly when they are equal and contain no NaN constant |
| ExpressionFacts.EquivalenceProperties | BinaryExpr.cs:61-68 | equivalence is symmetric, and a tree is equivalent to itself exactly when it has no NaN constant |
| ExpressionFacts.EquivalentEvaluateAlike | Expr.cs:35-42 | equivalent trees have the same value under every environment |
| Parser.BinaryOpOf | Parser.cs:99-110 | the classic parser knows only `+ - * / ^`; the expression parser knows the whole operator table |
| Parser.IndexOf | ExpressionParser.cs:166-172 | a name resolves to its first position in the parameter list, and fails exactly when it is absent |
| Parser.ResolveName | ExpressionParser.cs:163-188 | a name is a variable when the scope has it, else a named constant, else an undefined-name error |
| Parser.CreateCall | ExpressionParser.cs:214-237 | a call is built exactly when the function exists and gets its parameter count, and the classic parser accepts only one-argument functions |
| Parser.Advance | Parser.cs:51-55 | stepping past a token fails exactly when the next token is an error token |
| Parser.ParseExpression | Parser.cs:57-70 | a parsed expression consumed tokens, is well formed and in scope, and no binary operator follows it |
| Parser.ParseBinary | Parser.cs:72-97 | the loop stops at the first operator weaker than the minimum precedence, having consumed the operators it accepted |
| Parser.ClaimRight | Parser.cs:85-90 | the right operand absorbs operators strictly tighter than the current one and stops at the first that is not |
| Parser.ParseUnary | Parser.cs:126-202 | a number becomes that constant and consumes one token; a minus gives a negation; a token that starts no operand fails as a bad operand ("Syntax error." in the classic parser, "Invalid expression." in the expression parser); every success consumes tokens and is well formed and in scope |
| Parser.ParseIdentifier | Parser.cs:134-179 | an identifier followed by `(` is a call; otherwise it is a variable or a named constant and consumes one token, and an unknown name fails with the undefined-name error at the next token |
| Parser.ParseCall | Parser.cs:139-160 | a successful call consumes tokens and builds a call of the function the identifier names |
| Parser.CloseCall | Parser.cs:154-159 | anything but `)` after the arguments fails with "Expected )." at that token; a success consumes the `)` and calls the intrinsic of that name on the arguments |
| Parser.ParseGroup | Parser.cs:180-191 | a successful group consumes tokens and ends just after a `)` |
| Parser.ParseArgs | Parser.cs:144-152 | an argument list holds at least one expression, keeps the ones before it, and stops at a non-comma |
| Parser.Parse | ExpressionParser.cs:30-43 | a parse result is well formed and in scope, and the expression parser's result is fully folded |
| ParserFacts.SuccessReadsWholeInput | Parser.cs:30-41 | a successful parse met no error token anywhere in the input, and its expression ends exactly at the last token |
| ParserFacts.ParseIsWholeExpression | Parser.cs:30-41 | a parse succeeds exactly when the first token is no error and one expression spans the whole token stream; the result is that expression, simplified by the expression parser |
| ParserFacts.TrailingTokenRejected | Parser.cs:37-38 | an expression that stops before the end of input fails the parse at the token it stopped on, with the trailing-token message |
| ParserFacts.GroupNeedsCloseParen | Parser.cs:186-187 | `( expr` followed by anything but `)` fails with "Expected )." at that token |
| ParserFacts.GroupIsInner | Parser.cs:180-191 | `( expr )` is the inner expression itself, and parsing goes on after the `)` |
| ParserFacts.CallNeedsCloseParen | Parser.cs:154-155 | `f( args` followed by anything but `)` fails with "Expected )." at that token |
| ParserFacts.MinusNegatesOperand | Parser.cs:192-201 | `- unary` is the negation of the operand after the minus, and ends where it ends |
| ParserFacts.PositionalResultIsSimplified | ExpressionParser.cs:42 | simplifying the expression parser's result changes nothing |
| ParserFacts.EndWhereExpressionExpected | Parser.cs:60-61 | the end of input where an expression must start is reported as "Expected expression." at that token |
| ParserFacts.EmptyArgumentListRejected | Parser.cs:139-146 | `f()` is rejected at the `)` as a bad operand |
| ParserFacts.ArgumentCannotStartWithCloseParen | Parser.cs:192-196 | an argument list that starts with `)` fails there |
| ParserFacts.ThreeOperandAssociation | Parser.cs:72-97 | worked example of the chain results for three operands: in `a op1 b op2 c`, the second operator takes `b` only when it binds strictly tighter; equal precedences, `^` included, fold left |
| PrecedenceFacts.BinaryChain | Parser.cs:72-97 | on a chain of numbers and operators, the binary loop succeeds, stops on an operator position, keeps the tree ordered, and appends to the left operand exactly the items it read |
| PrecedenceFacts.ClaimChain | Parser.cs:85-90 | the inner loop succeeds, keeps the right operand ordered and binding more tightly than the current operator, and appends exactly the items it read |
| PrecedenceFacts.ChainParses | Parser.cs:57-70 | every chain parses as a whole into an ordered tree that reads the chain's items in order |
| PrecedenceFacts.TopIsLoosest | Parser.cs:72-97 | in an ordered tree, no operator binds more loosely than the root's |
| PrecedenceFacts.OrderedTreeIsUnique | Parser.cs:72-97 | two ordered trees that read the same items are the same tree |
| PrecedenceFacts.ChainParsesToOrderedTree | Parser.cs:57-97 | the parse of a chain is the ordered tree of its items, whichever that is: no operand binds more loosely than its parent, and a right operand binds strictly more tightly |
| PrecedenceFacts.LeftFoldIsOrdered | Parser.cs:72-97 | the left fold of a chain of one precedence is an ordered tree |
| PrecedenceFacts.LeftFoldYield | Parser.cs:72-97 | the left fold of a chain reads the chain's items in order |
| PrecedenceFacts.ChainFoldsLeft | Parser.cs:57-97 | a chain whose operators all share one precedence, `^` included, parses to its left fold |
| Curves.EndFigure | CurveBuilder.cs:74-81 | ending a figure emits the open figure only from InFigure, and always leaves the state Empty |
| Curves.AddPoint | CurveBuilder.cs:83-113 | the first point is held pending; a joined point begins or extends a figure; a point not joined to the last one ends the figure and is held pending |
| Curves.CloseSamplesJoined | CurveBuilder.cs:120-125 | samples within one canvas unit of each other are joined |
| Curves.GapSeparatesSamples | CurveBuilder.cs:127-132 | samples farther apart than one unit with no curve at their midpoint are not joined |
| Curves.InfiniteSamplesNotJoined | CurveBuilder.cs:135-148 | two samples at the same infinity are never joined, because their squared distance is NaN |
| Curves.FigureIncreasing | CurveBuilder.cs:40 | the points of a figure have strictly increasing x |
| Curves.AddPointKeepsInvariant | CurveBuilder.cs:83-113 | adding the next sample keeps every emitted and open figure a run of consecutive, present, joined samples |
| Curves.BeginKeepsFigure | CurveBuilder.cs:99-104 | two consecutive joined samples form a figure |
| Curves.ExtendKeepsFigure | CurveBuilder.cs:106-109 | a figure extended by the next joined sample is a figure |
| Curves.InFiguresGrows | CurveBuilder.cs:74-81 | emitting a figure keeps every segment already drawn, and adds the segments of the emitted one |
| Curves.InLineGrows | CurveBuilder.cs:106-109 | extending the open figure keeps its segments and adds the one to the new point |
| Curves.EndFigureKeepsDrawn | CurveBuilder.cs:74-81 | ending a figure loses no segment of the open figure |
| Curves.AbsentSampleKeepsCoverage | CurveBuilder.cs:47-50 | where the curve is absent, ending the figure keeps every joined pair before it drawn |
| Curves.PresentSampleKeepsCoverage | CurveBuilder.cs:43-46 | adding a present sample keeps every earlier joined pair drawn, and draws the pair it completes when joined |
| Curves.CreateGeometry | CurveBuilder.cs:38-54 | the builder ends Empty; every figure is a run of consecutive, present, joined samples with increasing x; every joined pair of consecutive samples is drawn |
| Curves.GetYOverReals | CurveBuilder.cs:56-72 | where the function has a value, the canvas y is that value times the scale plus the origin's y |
| Curves.GetYAbsentWhereFunctionIs | CurveBuilder.cs:56-72 | the canvas y is NaN exactly where the function is NaN at the logical x |
| Axes.FloorLog2 | AxisRenderer.cs:118 | the floor of the base-2 logarithm is the exponent whose power and double bracket the value |
| Axes.FloorLog2Unique | AxisRenderer.cs:118 | only one exponent brackets a value that way |
| Axes.Exponent | AxisRenderer.cs:118-119 | the unit's exponent is never below -3 |
| Axes.AxisUnitFromScale | AxisRenderer.cs:101-121 | a positive scale gives a unit of at least 1/8; scale 0 gives +inf; a negative, NaN or -inf scale gives NaN; +inf gives 1/8 |
| Axes.SpacingRange | AxisRenderer.cs:104-113 | a positive scale puts graduations at least 50 canvas units apart, and under 100 apart exactly when the scale is below 800 |
| Axes.UnclampedUnit | AxisRenderer.cs:118-120 | below the clamp, the unit is the reciprocal of the power of two bracketing scale/50 |
| Axes.SpacingFromBracket | AxisRenderer.cs:106-113 | a power of two bracketing scale/50 puts the spacing between 50 and 100 |
| Axes.ClampedSpacing | AxisRenderer.cs:119 | when the clamp applies, the unit is 1/8 and the spacing is at least 100 |
| Axes.DoublingScaleHalvesUnit | AxisRenderer.cs:115 | below the clamp, doubling the scale halves the unit |
| Axes.TickIndices | AxisRenderer.cs:72-75 | the tick indices are exactly the nonzero integers from the first to the last, in increasing order |
| Axes.DrawAxis | AxisRenderer.cs:53-97 | the ticks are those of the reference enumeration, and each tick's label value times the scale is minus its offset |
| Axes.AxisTicks | AxisRenderer.cs:67-96 | the ticks are indexed by exactly the nonzero integers from floor(minY / spacing) to ceiling(maxY / spacing), in increasing order; each sits at its index times the spacing and is labelled minus its index times the unit |
| Axes.TicksFromIndices | AxisRenderer.cs:88-96 | ticks built one per reference index are the reference ticks, and each label times the scale is minus its offset |
| Axes.DrawAxes | AxisRenderer.cs:29-51 | without a positive finite scale no tick is drawn; otherwise the vertical axis covers -originY to height-originY and the horizontal axis covers originX-width to originX |
| Axes.TicksCoverRange | AxisRenderer.cs:67-85 | every nonzero multiple of the spacing inside the range is a tick, and every tick lies within one spacing of the range |
| Axes.InRangeIsTick | AxisRenderer.cs:67-69 | a multiple of the spacing inside the range has an index between the floor and the ceiling bounds |
| Axes.TickIsNearRange | AxisRenderer.cs:67-69 | an index between the bounds lies within one spacing of the range |

## Left out

- Floating point: values are exact reals plus NaN and the two infinities.
  Rounding, signed zero, subnormals and overflow are not modelled, and
  neither are the single-precision conversions in `CurveBuilder.cs` and
  `AxisRenderer.cs`.
- Transcendental functions: `sqrt`, `sin`, `^`, `log2` and the rest are
  fields of the `MathLib` parameter and carry no numerics. Their numeric
  properties belong to the platform library.
- Lexer.MatchAt: the .NET regular-expression engine is replaced by a
  hand-written scan that tries the four alternatives of the pattern in order.
  Its `$` holds at the end of the input and just before a final line feed,
  as .NET's `$` does without the multiline option. The scan is related to
  the engine only through the pattern's text; no other engine behaviour is
  modelled.
- Parser reuse: every parse starts from a fresh lexer, as the formula view
  model does by creating a new parser for each input (FormulaViewModel.cs:87).
  A parser that is reused keeps one lexer, and setting its input does not
  reset the previous match (Lexer.cs:61-73). The first gap is then measured
  from where the previous input's last token ended, so a leading character
  that no alternative matches can go unreported. That carried-over state is
  not modelled.
- Positions: a Dafny string is a sequence of Unicode scalar values, while
  .NET string positions count UTF-16 code units. Past a character outside
  the Basic Multilingual Plane, every token and error position of the model
  is one less than the source's.
- Lexer.TryParse: `double.TryParse` is modelled as the exact decimal value
  of the lexeme. Culture-dependent parsing and overflow to infinity are
  left out.
- Curves.Joined: the recursive calls of `IsJoined` on the two halves are the
  `refine` parameter of the builder. In the source, termination rests on
  float granularity: the halving stops once the squared distance no longer
  shrinks. Over exact reals that argument does not exist. So the
  properties of `IsJoined` are proved for its base cases and for every
  outcome of the recursion.
- Curves.CreateGeometry: the sampling position counts exactly. In the source
  a float `x += 1` stops advancing at 2^24. Canvas widths are far below
  that.
- Axes.DrawAxis: the float loop counter is an exact integer, and a zero
  spacing is excluded by the precondition. `DrawAxes` never passes one: when
  the unit is infinite or NaN it draws nothing.
- Axes.FloorLog2: `float.Log2` and `float.Floor` are exact here. Near a
  power of two the source's rounded logarithm may pick the neighbouring
  unit.
- Drawing: the Win2D path builder, drawing sessions, transforms, colours,
  text layouts and the label cache `GetLabel` are left out. Figures are
  returned as point sequences. Ticks are returned as index, offset and label
  value.
- The classic parser's function table `UnaryFunctionExpr.Functions` is not
  part of this model. The classic dialect therefore accepts the
  one-argument intrinsics.
- Node classes: the expression parser wraps operators and negation in
  `FunctionExpr` nodes, and the model builds `Unary` and `Binary` nodes that
  evaluate alike. That file refers to `ConstExpr.NameConstants` and
  `FunctionExpr.Functions`, which this revision defines as
  `Constants.NamedConstants` and `FunctionDefs.Functions`. The model uses
  the latter.
- Precedence: `UnaryExpr.cs` names `Precedence.UnaryNegative`, which the
  enum lacks. The model uses `UnaryPrefix`.
- Missing tables: three names the parsers use are not defined in this
  revision. They are `NamedConstExpr.Constants` (Parser.cs:169),
  `BinaryExpr.AddOp` to `BinaryExpr.PowerOp` (Parser.cs:103-107) and
  `FunctionExpr.BinaryOperators` (ExpressionParser.cs:104). The model puts
  the six named constants of `Constants.NamedConstants` in place of the
  first. It puts the rows of the operator table at BinaryExpr.cs:75-147 in
  place of the other two.
- Sharing: `Simplify` returns the node itself (`return this`) when no child
  changed, and tests children by reference (`arg != Arg`). The model
  compares by value and returns an equal tree. Which nodes are shared
  between the input and the result is not modelled.
- Expressions.Eval: a variable index outside the argument array throws in
  the source. The model requires every variable to be in range instead, as
  the parsers guarantee. An intrinsic given fewer arguments than it reads
  is excluded the same way.
- Conditionals: `TernaryExpr` is modelled, but neither parser has syntax for
  `?:`. Its simplification never folds a constant conditional, as in the
  source.
- Remainder: its table row is modelled, but the lexer produces no `%`
  token, so no parse reaches it.
- User functions: `UserFunctionExpr` is modelled. The parsing of function
  definitions and the user-function tables in `FunctionsViewModel.cs` and
  `FormulaViewModel.cs` are left out.
- The user interface files (`App.xaml.cs`, `MainWindow.xaml.cs`,
  `GraphControl.xaml.cs`, the view models and `HelpBuilder.cs`) are outside
  the core.
