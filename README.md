# Student Java projects, modelled in Dafny

This project models the sequential core of several small Java projects and
proves what their code promises:

- **3DRender** (`renderer/Pipeline.java`): the back-face test, mapping a
  scene through a transform, scan-converting a triangle into an edge list,
  and compositing an edge list into a z-buffer with a strict depth test.
- **Shapes** (`shapes/Interpreter.java`): a recursive-descent interpreter
  for a small shape language, with a cursor `index` into the program text,
  a variable environment, `fill`, `draw` and assignment commands.
- **cardGame** (`core/Trick.java`, `variations/SingleHandWhist.java`): a
  trick of whist filled seat by seat, legality of a move, the winner of a
  trick, and the round-robin deal.
- **implementingDatabase** (`io/DatabaseFileReader.java`): the schema line,
  the key column marked with `*`, and the data rows of a text database.
- **CellDecayGameOfLife**: neighbour counting with edge handling, and
  Conway's underpopulation and reproduction rules.
- **robotWar** (`core/Robot.java`): being shot, the robots in sight, and
  the shooting step common to every robot.
- **RoboGame** (`core/MulNode.java`, `core/SubNode.java`): 32-bit `mul` and
  `sub` nodes of the robot language and their printed form.

Layout:

| file | modules | models |
|---|---|---|
| wrappers.dfy | Wrappers | `Option` and `Result` |
| java_lang.dfy | JavaLang | 32-bit `int` wrap-around, `Character.isDigit`/`isLetter`, `Integer.parseInt` |
| geometry.dfy | Geometry | vectors and the affine 3×4 `Transform` |
| pipeline.dfy | Pipeline | Pipeline.java |
| shapes_parser.dfy | ShapeParser | the readers and expression grammar of Interpreter.java, as functions over (text, cursor) |
| shapes_commands.dfy | ShapeCommands | commands, `fillShape`'s pixels, a whole program |
| shapes_programs.dfy | ShapePrograms | shape programs as syntax trees, their printed text, and the parse-of-print round trip |
| shapes_interpreter.dfy | ShapeInterpreter | the `Interpreter` class itself, each method proved against the functions above |
| cards.dfy | Cards, Tricks, Whist | seats, cards, Trick.java, SingleHandWhist.java |
| database_reader.dfy | JavaSplit, DatabaseReader | `String.split`, DatabaseFileReader.java |
| life_rules.dfy | CellDecayRule, ConwayRules | CellDecayAbstractRule.java and the two Conway rules |
| robot_war.dfy | RobotWar | Robot.java |
| robo_nodes.dfy | RoboNodes | MulNode.java and SubNode.java |

The code that changes state in place is modelled in place:
- `Interpreter` is a class whose `index` and `environment` fields the readers update.
- `Trick` keeps its four slots in an `array`.
- `computeZBuffer` writes two `array2`s.
- `DatabaseFileReader` advances a cursor over its text, as its `Scanner` does. Lines end at the terminators `Scanner.nextLine` knows: '\n', "\r\n", '\r', U+0085, U+2028 and U+2029.

Each such method is proved equal to a function of the old state, and the
properties are proved about those functions.

## Model

| member | source | states |
|---|---|---|
| Pipeline.IsHidden | 3DRender/renderer/Pipeline.java:22-24 | a polygon is hidden exactly when the z component of its normal is strictly above 1e-5 |
| Pipeline.CrossNormalFlipsWithWinding | 3DRender/renderer/Pipeline.java:22-24 | a cross-product normal changes sign when the triangle's winding is reversed |
| Pipeline.TwinsNeverBothHidden | 3DRender/renderer/Pipeline.java:22-24 | with such a normal, a polygon and its reversed twin are never both hidden |
| Pipeline.ProcessMatrix | 3DRender/renderer/Pipeline.java:127-143 | the new scene has the same number of polygons in the same order, each keeping its reflectance, every vertex and the light mapped through the matrix |
| Pipeline.RotateScene | 3DRender/renderer/Pipeline.java:83-90 | the scene is mapped through `xRotation.compose(yRotation)`; under the composition order assumed for `Transform.compose` (see Left out) the y rotation applies first |
| Pipeline.TranslateScene | 3DRender/renderer/Pipeline.java:101-105 | the scene is mapped through the translation by the three offsets |
| Pipeline.ScaleScene | 3DRender/renderer/Pipeline.java:113-118 | the scene is mapped through the scaling by the three factors |
| Pipeline.TransformSceneCompose | 3DRender/renderer/Pipeline.java:86-88 | mapping a scene through t and then s is mapping it once through s.compose(t) |
| Pipeline.TranslateSceneRoundTrip | 3DRender/renderer/Pipeline.java:101-105 | translating a scene and then translating it back gives the original scene |
| Pipeline.ScaleSceneRoundTrip | 3DRender/renderer/Pipeline.java:113-118 | scaling a scene by non-zero factors and then by their inverses gives the original scene |
| Geometry.ComposeMultiply | 3DRender/renderer/Pipeline.java:86 | applying a composed transform is applying the right-hand one and then the left-hand one |
| Geometry.Translation | 3DRender/renderer/Pipeline.java:103 | the translation matrix adds the offsets to every vector |
| Geometry.Scaling | 3DRender/renderer/Pipeline.java:115 | the scale matrix multiplies each coordinate of every vector by its factor |
| Geometry.TranslationInverse | 3DRender/renderer/Pipeline.java:101-105 | translating by an offset and then by its opposite is the identity |
| Geometry.ScalingInverse | 3DRender/renderer/Pipeline.java:113-118 | scaling by non-zero factors and then by their inverses is the identity |
| Pipeline.Trunc | 3DRender/renderer/Pipeline.java:159-160 | the `(int)` cast rounds toward zero: within one below a non-negative value, within one above a negative one |
| Pipeline.Widen | 3DRender/renderer/Pipeline.java:189 | adding a point to a row records the row, keeps the point between its left and right ends, and leaves every other row alone |
| Pipeline.ComputeEdgeList | 3DRender/renderer/Pipeline.java:154-198 | start row and end row are the truncated least and greatest vertex y; the edge list holds exactly the writes of the three edges, in order |
| Pipeline.WalkEdge | 3DRender/renderer/Pipeline.java:179-193 | the `while (y < yEnd)` loop adds the writes of one edge walked from its upper end |
| Pipeline.EdgeWalkSymmetric | 3DRender/renderer/Pipeline.java:169-177 | an edge writes the same rows whichever of its ends comes first |
| Pipeline.EdgeWalkFromUp | 3DRender/renderer/Pipeline.java:179-193 | a non-horizontal edge writes rows `(int) up.y` up to but excluding `(int) down.y`, at offset `y - startY`, with x and z advanced by their slopes |
| Pipeline.EdgeWritesInRange | 3DRender/renderer/Pipeline.java:159-193 | every row an edge writes lies in `[0, endY - startY)` |
| Pipeline.EdgeListCoversRows | 3DRender/renderer/Pipeline.java:159-193 | every row in `[0, endY - startY)` is written by some edge |
| Pipeline.DepthAfter | 3DRender/renderer/Pipeline.java:244-247 | a stored depth never increases, and it changes exactly when the offered depth is strictly smaller |
| Pipeline.ColorAfter | 3DRender/renderer/Pipeline.java:244-247 | the colour becomes the polygon's exactly when the depth test passes |
| Pipeline.DepthTestOrderIndependent | 3DRender/renderer/Pipeline.java:244-247 | two polygons at different depths leave the same depth and colour whichever is composited first |
| Pipeline.CompositeRows | 3DRender/renderer/Pipeline.java:224-256 | after the row loop, each pixel inside both buffers holds the depth and colour the strict depth test gives for the depth its row's span offers there; rows and columns outside `zbuffer` are skipped, so a larger `zdepth` keeps its other cells; a buffer with no columns throws exactly when some row is not above the buffer |
| Pipeline.ComputeZBuffer | 3DRender/renderer/Pipeline.java:218-258 | as written, both buffers are left unchanged, whatever their sizes |
| Pipeline.CompositeEdgeList | 3DRender/renderer/Pipeline.java:218-258 | with the row count taken from the end row, every row of the edge list is composited by the depth test; a buffer with no columns throws exactly when the edge list has rows and its end row is above 0 |
| Pipeline.ZBufferFindingWitness | 3DRender/renderer/Pipeline.java:219-221 | on one pixel, the code as written keeps depth 1 where the corrected compositor stores depth 0 |
| ShapeParser.SkipSpacesSpec | Shapes/shapes/Interpreter.java:450-454 | skipping passes only blanks (' ' and '\n') and stops at the end or at a character that is not blank |
| ShapeParser.MatchSpec | Shapes/shapes/Interpreter.java:437-444 | after skipping blanks, `match` succeeds exactly when the text is there, and then moves past it; otherwise it reports the expected text at the skipped position |
| ShapeParser.ReadNumberValue | Shapes/shapes/Interpreter.java:371-378 | a number is the maximal run of digits after blanks; it is read when the run is non-empty and fits in an `int`, and otherwise it is a number-format error on that run |
| ShapeParser.ReadColorSpec | Shapes/shapes/Interpreter.java:387-395 | a color is the seven characters after blanks; fewer than seven left is an error |
| ShapeParser.ReadVariableSpec | Shapes/shapes/Interpreter.java:404-416 | a variable starts with a letter and is the maximal run of letters and digits; at the end of the input, or at a character that is not a letter, it is an error |
| ShapeParser.VariableExprSpec | Shapes/shapes/Interpreter.java:354-363 | a variable expression yields the bound shape; an unbound name is an error at the name's start |
| ShapeParser.NumbersAt | Shapes/shapes/Interpreter.java:333-339 | reading comma-separated numbers gives exactly as many numbers as asked for, moving forward |
| ShapeParser.RectangleExpr | Shapes/shapes/Interpreter.java:329-344 | a rectangle expression '[' n ',' n ',' n ',' n ']' yields a rectangle and moves forward |
| ShapeParser.RectangleNonNegative | Shapes/shapes/Interpreter.java:329-344 | the four numbers of a rectangle read from text are never negative |
| ShapeParser.ShapeExpr | Shapes/shapes/Interpreter.java:272-308 | a shape expression moves the cursor forward and never past the end |
| ShapeParser.ShapeExprStops | Shapes/shapes/Interpreter.java:291-307 | an expression stops at the end of the input or before a character that is neither blank nor an operator |
| ShapeParser.Operand | Shapes/shapes/Interpreter.java:278-289 | an operand that does not start with '(', '[' or a letter is an unknown-operator error |
| ShapeParser.Bracketed | Shapes/shapes/Interpreter.java:316-321 | a bracketed expression moves the cursor forward and never past the end |
| ShapePrograms.ParsePrinted | Shapes/shapes/Interpreter.java:272-363 | the printed text of any well-formed expression parses back to that expression's shape, ending after it |
| ShapePrograms.ExpressionPrinted | Shapes/shapes/Interpreter.java:272-308 | parsing a whole printed expression gives its shape and uses up the text |
| ShapePrograms.OperatorsGroupRight | Shapes/shapes/Interpreter.java:296-306 | `x op1 y op2 z` is `x op1 (y op2 z)`: operators have no precedence and group to the right |
| ShapePrograms.RectanglePrinted | Shapes/shapes/Interpreter.java:329-344 | a printed rectangle is read back as the same rectangle |
| ShapePrograms.NumbersPrinted | Shapes/shapes/Interpreter.java:333-339 | printed comma-separated numbers are read back as the same numbers |
| ShapePrograms.CommandPrinted | Shapes/shapes/Interpreter.java:88-108 | a printed command is read back as that command's effect |
| ShapePrograms.ProgramPrinted | Shapes/shapes/Interpreter.java:73-79 | running a printed program gives exactly what executing its commands draws |
| ShapePrograms.RunPrinted | Shapes/shapes/Interpreter.java:73-79 | from an empty environment and canvas, running a printed program draws what its commands draw |
| ShapeCommands.FillPixelsMembers | Shapes/shapes/Interpreter.java:135-168 | `fillShape` draws exactly the points of `[x, x+w) × [y, y+h)` that the shape contains, in the color, and nothing when there is no bounding box |
| ShapeCommands.ColumnsDistinct | Shapes/shapes/Interpreter.java:135-168 | no point is drawn twice by one `fillShape` |
| ShapeCommands.CommandOf | Shapes/shapes/Interpreter.java:88-108 | a command that is read moves the cursor forward and never past the end |
| ShapeCommands.Bind | Shapes/shapes/Interpreter.java:100-105 | an assignment binds the name to the shape, keeps every other binding, and overwrites an earlier binding; fill and draw leave the environment alone |
| ShapeCommands.ProgramOf | Shapes/shapes/Interpreter.java:73-79 | running a program only adds pixels to the canvas |
| ShapeInterpreter.Canvas.Draw | Shapes/shapes/Interpreter.java:161 | drawing appends one pixel to the canvas |
| ShapeInterpreter.Interpreter.constructor | Shapes/shapes/Interpreter.java:62-65 | the cursor starts at 0 with an empty environment |
| ShapeInterpreter.Interpreter.SkipWhiteSpace | Shapes/shapes/Interpreter.java:450-454 | the cursor moves to where blanks end |
| ShapeInterpreter.Interpreter.Match | Shapes/shapes/Interpreter.java:437-444 | agrees with `match` as a function: the cursor after the text, or the error |
| ShapeInterpreter.Interpreter.ReadNumber | Shapes/shapes/Interpreter.java:371-378 | agrees with reading a number as a function: value and new cursor, or the error |
| ShapeInterpreter.Interpreter.ReadColor | Shapes/shapes/Interpreter.java:387-395 | agrees with reading a color as a function |
| ShapeInterpreter.Interpreter.ReadVariable | Shapes/shapes/Interpreter.java:404-416 | agrees with reading a variable as a function |
| ShapeInterpreter.Interpreter.ReadOperator | Shapes/shapes/Interpreter.java:423-429 | '+', '-' and '&' are read as themselves, moving the cursor by one; any other character is an invalid-operator error |
| ShapeInterpreter.Interpreter.EvaluateShapeExpression | Shapes/shapes/Interpreter.java:272-308 | agrees with the expression grammar: the shape and the new cursor, or the error |
| ShapeInterpreter.Interpreter.EvaluateBracketedExpression | Shapes/shapes/Interpreter.java:316-321 | agrees with the bracketed grammar |
| ShapeInterpreter.Interpreter.EvaluateRectangleExpression | Shapes/shapes/Interpreter.java:329-344 | agrees with the rectangle grammar |
| ShapeInterpreter.Interpreter.EvaluateVariableExpression | Shapes/shapes/Interpreter.java:354-363 | agrees with the variable grammar, and resets the cursor to the name's start on an undefined name |
| ShapeInterpreter.Interpreter.FillShape | Shapes/shapes/Interpreter.java:135-168 | the canvas gains exactly the pixels of the filled shape, column by column |
| ShapeInterpreter.Interpreter.DrawShape | Shapes/shapes/Interpreter.java:177-262 | the canvas gains exactly the outline's pixels |
| ShapeInterpreter.Interpreter.EvaluateNextCommand | Shapes/shapes/Interpreter.java:88-108 | on success the cursor, the environment and the canvas are as the command's effect says; otherwise the error is reported |
| ShapeInterpreter.Interpreter.Run | Shapes/shapes/Interpreter.java:73-79 | the canvas drawn is the whole program's pixels and the cursor ends at the end of the text, or the first error is reported |
| Cards.CompareTo | cardGame/core/Trick.java:117-118 | within one suit, `compareTo` is non-negative exactly when the rank is at least as high; it is zero exactly for equal cards |
| Cards.NextIsFourCycle | cardGame/core/Trick.java:84 | `next()` returns to a seat after exactly four steps and not sooner |
| Cards.AdvanceModFour | cardGame/core/Trick.java:84 | advancing n seats is advancing n mod 4 seats |
| Cards.Steps | cardGame/core/Trick.java:79-85 | the number of `next()` steps from one seat to another is below 4 and is the first that reaches it |
| Tricks.FirstEmpty | cardGame/core/Trick.java:169-175 | the first empty slot: every slot before it is filled |
| Tricks.PlayedPrefix | cardGame/core/Trick.java:59-69 | the cards before the first empty slot, in slot order |
| Tricks.NextToPlay | cardGame/core/Trick.java:95-104 | there is no next player exactly when all four slots are filled |
| Tricks.WinnerUpTo | cardGame/core/Trick.java:112-130 | the winner is one of the cards scanned |
| Tricks.WinnerHoldsHighestOfWinningSuit | cardGame/core/Trick.java:112-130 | the winner holds the highest trump when a trump was played, and the highest card of the lead suit otherwise |
| Tricks.Trick.constructor | cardGame/core/Trick.java:29-32 | a new trick has its lead and trumps and four empty slots |
| Tricks.Trick.GetCardsPlayed | cardGame/core/Trick.java:59-69 | returns the cards before the first empty slot, in play order |
| Tricks.Trick.GetCardPlayed | cardGame/core/Trick.java:78-88 | returns the slot as many places from the first as there are `next()` steps from the lead to the seat |
| Tricks.Trick.GetNextToPlay | cardGame/core/Trick.java:95-104 | returns the lead advanced once per played card, and null once all four are filled |
| Tricks.Trick.GetWinner | cardGame/core/Trick.java:112-130 | with four cards played, returns the seat of the winning card; an unfinished trick is a `NullPointerException` |
| Tricks.Trick.Play | cardGame/core/Trick.java:142-176 | an illegal move changes nothing; a legal one fills exactly the first empty slot with the card and removes it from the hand |
| Tricks.PlayError | cardGame/core/Trick.java:142-166 | a card not in the hand, a player out of turn, and a player who could follow the lead suit but does not are each refused, and nothing else is |
| Tricks.FillingFirstEmptyKeepsFront | cardGame/core/Trick.java:169-175 | filling the first empty slot keeps the slots filled from the front and moves the first empty slot on by one |
| Whist.DealIsRoundRobin | cardGame/variations/SingleHandWhist.java:40-45 | deck card i goes to North advanced i mod 4 times |
| Whist.EachCardInExactlyOneHand | cardGame/variations/SingleHandWhist.java:41-45 | with no card twice in the deck, every deck card is in exactly one hand, the hand it is dealt to |
| Whist.SingleHandWhist.IsGameFinished | cardGame/variations/SingleHandWhist.java:26-33 | true exactly when some seat's score is 1 |
| Whist.SingleHandWhist.Deal | cardGame/variations/SingleHandWhist.java:35-46 | the current trick is null, scores are kept, and each hand holds exactly the deck cards dealt to it |
| JavaSplit.Split | implementingDatabase/io/DatabaseFileReader.java:46 | `split` gives the whole text when the separator is absent, and otherwise the pieces between separators without trailing empty ones |
| JavaSplit.SplitRoundTrip | implementingDatabase/io/DatabaseFileReader.java:46 | `split` loses only trailing empty pieces: padded back with enough empty pieces and joined with the separator, its result is the original text |
| JavaSplit.JoinSplitAll | implementingDatabase/io/DatabaseFileReader.java:74 | joining the pieces with the separator gives back the text |
| JavaSplit.SplitAllJoin | implementingDatabase/io/DatabaseFileReader.java:74 | splitting joined pieces that hold no separator gives back the pieces |
| DatabaseReader.SchemaHasOneColumnPerEntry | implementingDatabase/io/DatabaseFileReader.java:73-92 | the schema has one column per comma-separated entry, each parsed from its own entry |
| DatabaseReader.ColumnNameAndType | implementingDatabase/io/DatabaseFileReader.java:80-88 | a column is named by the text before ':', and its type is Integer exactly when the text after ':' starts with "int" |
| DatabaseReader.ParseSchema | implementingDatabase/io/DatabaseFileReader.java:73-92 | the loop computes the schema of the line, or the error |
| DatabaseReader.StarIndices | implementingDatabase/io/DatabaseFileReader.java:108-116 | only indices of columns ending in '*' are listed, in increasing order |
| DatabaseReader.StarIndicesComplete | implementingDatabase/io/DatabaseFileReader.java:108-116 | every column ending in '*' has its index listed |
| DatabaseReader.KeyAtIndexZeroIsReplaced | implementingDatabase/io/DatabaseFileReader.java:110 | a key column at index 0 is silently replaced by a later one |
| DatabaseReader.KeyAtLaterIndexIsDuplicate | implementingDatabase/io/DatabaseFileReader.java:110-114 | a second key column after a key at a later index is a duplicate key |
| DatabaseReader.DuplicateIsFinal | implementingDatabase/io/DatabaseFileReader.java:108-116 | once a prefix of the columns has too many keys, the whole line is a duplicate key |
| DatabaseReader.KeyStep | implementingDatabase/io/DatabaseFileReader.java:108-121 | one more key column is accepted exactly when the last key so far is at index 0 or below; no key at all is an invalid row |
| DatabaseReader.FindKeyField | implementingDatabase/io/DatabaseFileReader.java:105-122 | the loop returns the key column found from the column indices ending in '*', or the error |
| DatabaseReader.RowKeepsPositions | implementingDatabase/io/DatabaseFileReader.java:52-61 | each item keeps its position: Integer columns are parsed, String columns kept verbatim |
| DatabaseReader.ParseRowItems | implementingDatabase/io/DatabaseFileReader.java:45-64 | the loop computes the row of the line, or the wrong-item-count or number-format error |
| DatabaseReader.EachLineIsOneRow | implementingDatabase/io/DatabaseFileReader.java:29-33 | lines joined by any one line terminator, the last of which holds data, become exactly one row each, in order; a blank line before the last is a row too |
| DatabaseReader.ReadSchemaThenRows | implementingDatabase/io/DatabaseFileReader.java:20-36 | the first line is the schema and key, and every remaining line (blank ones included, as long as the last holds data) is a row, whichever line terminator the file uses |
| DatabaseReader.CrLfFile | implementingDatabase/io/DatabaseFileReader.java:20-36 | a file whose lines end in "\r\n" reads as the same file with '\n' |
| DatabaseReader.NextLineOfBreak | implementingDatabase/io/DatabaseFileReader.java:22 | a line without terminators followed by one terminator reads as that line, and the terminator is dropped |
| DatabaseReader.ParseRowsPositions | implementingDatabase/io/DatabaseFileReader.java:29-33 | the rows are as many as the lines, row k parsed from line k |
| DatabaseReader.DatabaseFileReader.NextLine | implementingDatabase/io/DatabaseFileReader.java:22 | `nextLine` returns the text up to the first line terminator and moves past it ("\r\n" counting as one); at the end it is an error |
| DatabaseReader.DatabaseFileReader.ReadRows | implementingDatabase/io/DatabaseFileReader.java:29-33 | the loop returns the rows of the rest of the text |
| DatabaseReader.DatabaseFileReader.Read | implementingDatabase/io/DatabaseFileReader.java:20-36 | `read` returns the database of the whole text, or the first error |
| CellDecayRule.NumAlive | CellDecayGameOfLife/src/swen221/lab2/util/CellDecayAbstractRule.java:62-72 | a cell counts 1 exactly when both coordinates lie in `[0, width)` and it is not DEAD (9) |
| CellDecayRule.RowsBelowWidthNeverCount | CellDecayGameOfLife/src/swen221/lab2/util/CellDecayAbstractRule.java:65-66 | on a board taller than wide, a cell in a row at or below the width never counts |
| CellDecayRule.NeighbourCount | CellDecayGameOfLife/src/swen221/lab2/util/CellDecayAbstractRule.java:21-36 | the count is between 0 and 8 |
| CellDecayRule.CountDependsOnlyOnNeighbours | CellDecayGameOfLife/src/swen221/lab2/util/CellDecayAbstractRule.java:24-34 | the count reads only the eight neighbours |
| CellDecayRule.CentreIsNotCounted | CellDecayGameOfLife/src/swen221/lab2/util/CellDecayAbstractRule.java:24-34 | the cell itself is never read |
| CellDecayRule.AllLiveNeighboursCountEight | CellDecayGameOfLife/src/swen221/lab2/util/CellDecayAbstractRule.java:24-34 | inside the board, eight live neighbours count 8 |
| CellDecayRule.Apply | CellDecayGameOfLife/src/swen221/lab2/util/CellDecayAbstractRule.java:20-37 | the board is recorded in the static field, and the rule is applied to the neighbour count |
| ConwayRules.Underpopulation | CellDecayGameOfLife/src/swen221/lab2/rules/ConwaysUnderpopulationRule.java:15-23 | fewer than two neighbours is DEAD; otherwise the rule does not apply |
| ConwayRules.Reproduction | CellDecayGameOfLife/src/swen221/lab2/rules/ConwaysReproductionRule.java:18-23 | exactly three neighbours is ALIVE; otherwise the rule does not apply |
| ConwayRules.RulesIgnorePosition | CellDecayGameOfLife/src/swen221/lab2/rules/ConwaysReproductionRule.java:18-23 | neither rule depends on the cell's position |
| ConwayRules.UnderpopulationDownwardClosed | CellDecayGameOfLife/src/swen221/lab2/rules/ConwaysUnderpopulationRule.java:16 | if underpopulation applies at a count, it applies at every smaller count |
| ConwayRules.ReproductionAppliesAtOneCount | CellDecayGameOfLife/src/swen221/lab2/rules/ConwaysReproductionRule.java:19 | reproduction applies at three neighbours and at no other count |
| RobotWar.Robot.constructor | robotWar/robotwar/core/Robot.java:50-56 | name, position and strength are stored and the robot starts alive |
| RobotWar.Robot.IsShot | robotWar/robotwar/core/Robot.java:67-73 | strength drops by exactly one whatever the argument, wrapping from the least `int` to the greatest; the robot dies when strength falls below 1 and never comes back to life; name and position are kept |
| RobotWar.Robot.InSight | robotWar/robotwar/core/Robot.java:83-103 | the robots in sight are exactly the other live robots strictly within the distance, as a subsequence of the list in its order |
| RobotWar.Robot.NeverSeesItselfOrTheDead | robotWar/robotwar/core/Robot.java:89 | a robot never sees itself or a dead robot |
| RobotWar.Robot.FindRobotsInSight | robotWar/robotwar/core/Robot.java:83-103 | the loop returns the robots in sight |
| RobotWar.Robot.Common | robotWar/robotwar/core/Robot.java:104-119 | one shot at the first robot within range 10 is appended when there is one, and nothing otherwise; the robot dies when its strength is below 1 |
| RoboNodes.Show | RoboGame/src/core/MulNode.java:19-21 | a `mul` node prints as "mul(", its first operand's text, ", ", its second operand's text and ")"; a `sub` node the same with "sub(" (SubNode.java:19-21) |
| RoboNodes.MulSubPrintDifferently | RoboGame/src/core/SubNode.java:19-21 | a `mul` node and a `sub` node never print the same text |
| RoboNodes.EvaluateIsWrappedExactValue | RoboGame/src/core/MulNode.java:14-16 | with side-effect-free leaves, a node's value is its exact product or difference wrapped to 32 bits |
| RoboNodes.MulOperandsCommute | RoboGame/src/core/MulNode.java:14-16 | swapping side-effect-free operands of `mul` does not change its value |
| RoboNodes.SubOperandsAntiCommute | RoboGame/src/core/SubNode.java:14-16 | swapping side-effect-free operands of `sub` negates its value modulo 2^32 |
| RoboNodes.LeftOperandEvaluatedFirst | RoboGame/src/core/SubNode.java:14-16 | the left operand is evaluated first: on a robot-changing leaf, `sub` gives the earlier value minus the later one |

## Left out

- Float arithmetic: coordinates, depths and slopes are `real`. Float rounding in the edge walk and the z interpolation is not captured. For an empty span, Java's depth slope divides by zero and is infinite or NaN, while the model's is 0. The slope is never used in that case.
- `Pipeline.getShading`, `fitByScaleTranslate` and `reTranslation` are colour and scaling arithmetic over floats. They depend on `Vector3D.cosTheta` and on the canvas size, neither of which is part of this model.
- Transform.java, Polygon.java, Vector3D.java, EdgeList.java and Scene.java are not part of this model. The model supplies:
  - the transform, an affine 3×4 matrix;
  - the normal, a parameter of `IsHidden`, with the cross product as one instance;
  - the edge list, a map from row to its leftmost and rightmost points.
- Pipeline.CompositeRows, Pipeline.ComputeZBuffer and Pipeline.CompositeEdgeList take the two buffers as rectangular `array2`s, as `computeZBuffer`'s caller allocates them (Pipeline.java:204-205). When there are rows to composite, `zdepth` must be at least as large as `zbuffer` in both dimensions. So the `ArrayIndexOutOfBoundsException` that a smaller or jagged buffer raises at `zdepth[x][y + startY]` (Pipeline.java:244) is not modelled.
- Geometry.Compose and Pipeline.RotateScene take `s.compose(t)` to be the matrix product s·t, which applies t first. Transform.java is not part of this model, so that order is assumed; under the opposite order the x rotation would apply first.
- The rotation matrices are parameters of `RotateScene`. `Transform.newXRotation` and `newYRotation` are not part of this model.
- `Interpreter.readWord` is never called, and it is not modelled.
- `Interpreter.error` builds an exception message with a caret under the failing position. The model reports an `Error` value with the kind and the position instead of the message string.
- Shape.java, Rectangle.java, CompoundShape.java, Color.java and Canvas.java are not part of this model:
  - `contains` and `boundingBox` are parameters;
  - a compound shape is kept as a syntax value;
  - a color is its seven-character code;
  - the canvas is the list of its `draw` calls.
- `Interpreter.drawShape` scans a shape's outline pixel by pixel over its bounding box. That scan is a parameter (`ops.outline`), so its geometry is not modelled.
- ShapeInterpreter.Interpreter.Run returns the first error as a value instead of throwing `IllegalArgumentException`.
- ShapeInterpreter.Interpreter.ReadOperator requires `index < |input|`, which its only caller, `evaluateShapeExpression`, establishes before the call. The Java method does not read the input; it only advances the cursor.
- JavaLang.IsLetter and JavaLang.IsDigit are ASCII only, and so are ShapeParser.ReadVariableSpec and ShapeParser.ReadNumberValue. `Character.isLetter`, `Character.isDigit` and `Integer.parseInt` also accept other Unicode letters and digits, so a variable named `é` is an assignment in Java but an illegal-variable error in the model.
- In `evaluateNextCommand`, the source's test `!cmd.equals("")` can never fail, because `readVariable` returns a non-empty word or throws. The model keeps that as an assertion, not as a branch.
- Card.java, Player.java and Hand.java are not part of this model. A card is a suit and a rank 2..14; a hand is a set of cards; `Hand.matches` is the set of cards of one suit.
- Whist.SingleHandWhist.Deal states the hands as sets, so the order in which cards are added to a hand is not captured.
- `Trick.play`'s exception messages are a datatype of move errors rather than strings.
- DatabaseImpl and ColumnType are not part of this model. `read` returns a `Database` value holding schema, key index and rows.
- `Integer.parseInt` in `parseRowItems` accepts an optional sign and decimal digits in `int` range. Non-ASCII digits are not modelled.
- Board.java and the remaining rule classes of CellDecayGameOfLife are not part of this model. A `BoardView` gives the width, height and cell states.
- `Robot.takeTurn` and the robot subclasses are not part of this model, and neither are Battle.java or Shoot.java. A battle is its list of robots and its list of actions.
- RobotWar.Robot.InSight compares exact squared distances (`dx*dx + dy*dy < distance*distance`). It does not model `Math.sqrt` rounding or the 32-bit overflow of `dx*dx` for coordinates beyond 46340.
- The other node classes of RoboGame (numbers, sensors, `add`, `div`) are not part of this model. Leaves are a parameter giving each leaf's value and effect on the robot.
- ConwayRules.Underpopulation and ConwayRules.Reproduction answer with a `Verdict` value (Alive, Dead or NotApplicable) instead of the int codes `ConwayAbstractRule.ALIVE`, `ConwayAbstractRule.DEAD` and `Rule.NOT_APPLICABLE`; ConwayAbstractRule.java and Rule.java are not part of this model. `CellDecayRule.Apply` still takes a rule that returns an int, as CellDecayAbstractRule.apply does.

## Findings

| source | as written | input that shows it | evidently intended | confidence | as-written member | corrected member |
|---|---|---|---|---|---|---|
| 3DRender/renderer/Pipeline.java:219-221 | `endY` is read with `getStartY()`, so `height` is 0 and the row loop of `computeZBuffer` never runs; no polygon is ever drawn into the z-buffer | a 1×1 buffer at depth 1 and an edge list with start row 0, end row 1 and a span over column 0 at depth 0: the pixel keeps depth 1 | `endY` read with `getEndY()`, compositing every row of the edge list | not executed | Pipeline.ComputeZBuffer, Pipeline.ZBufferFindingWitness | Pipeline.CompositeEdgeList |
