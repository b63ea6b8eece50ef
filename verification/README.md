# AurionOS core, in Dafny

AurionOS is a freestanding C kernel that carries its own script interpreter, build tool, file system, software 3D
pipeline and disk readers. This project models these closed, deterministic parts and proves what they promise over whole
runs. Each part has three layers: a specification (functions on values with the branches of the source), imperative
methods and classes in the form of the source (cursors, fixed tables, loops over buffers) proved equal to it, and lemmas
that tie the specification to an independent description.

| files | part |
|---|---|
| `CText`, `TextFacts`, `Bytes`, `Wrappers` | C strings (a pointer is the text from it up to the NUL), little-endian numbers, missing values |
| `PyExpr`, `PyRoundTrip`, `PyBlock`, `PyProgram`, `PyLayout`, `PyBlockProof`, `PyValues`, `PyRuns`, `PyLines`, `PyLimits`, `PyInterp` | the AurionPython interpreter: printed expression trees and programs against structural meaning, that meaning in plain arithmetic, and where its scans of raw text give it up |
| `MakeBuild`, `MakeProof`, `MakeParse`, `MakeOrder`, `MakeRoundTrip`, `MakeMeaning`, `MakeTool` | MAKE: depth-first build over arbitrary rule graphs, parser, variable expansion |
| `FsModel`, `FsRuns`, `FsPaths`, `FsDisk`, `FsFormat`, `FsRoundTrip`, `FsLabel`, `FsReload`, `FsReboot`, `FsRefused`, `FileSystem` | AurionFS in memory and on disk |
| `Factor` | the FACTOR command |
| `GlMatrix`, `GlInverse`, `GlRotation`, `GlPipeline`, `GlMeaning`, `GlState` | the AurionGL transform core over exact reals |
| `Paint`, `SnakeGame`, `SnakeRules`, `SnakeTurns` | the brush line of Paint, the Snake game |
| `Fat32`, `Fat32Chains` | FAT32 chain reading |
| `Scrollback`, `ScrollbackRules`, `ScrollbackBuffer` | the console scrollback viewer |
| `HttpModel`, `HttpRoundTrip`, `HttpLimits`, `HttpClient`, `HttpUrl` | the HTTP response parser and URL splitter |
| `Iso9660`, `IsoTree`, `IsoNames` | ISO 9660 path lookup |

Conventions: characters stand for bytes; integers are unbounded except where a wrap is written out (`% WORD`); every
disk and screen access succeeds. Where the code does not do what it seems to promise, the code is kept and a lemma
names the exact condition, a concrete input, or both: `PartIff`, `PrintedLiteral` and `HelloWorld` (commas in print),
`CondIff` and `ColonScript` (colons in conditions), `ArgReadIff` and `ParenScript` (parentheses in literals),
`RangeOfExpr` and `VariableRangeRunsNone` (loop bounds), `GroupsUnread`, `ComparisonScript` (a comparison on a line of
its own), `AssignmentIff`, `LongScript`, `LongLoop`, `NameIff` and `LiteralIff` (names and literals), `TabHangs`,
`SaveThenLoad`, `StepUnique` and `LongPathBreaksUniqueness` (long paths), `SaveContentsIff`, `RebootReads` and
`RefusedHarms` (a full content store), `PushPopIff` and `FullStackLoses`, `TwoKeysReverse` and `SteeredTurns`,
`LengthsRunTogether` and `LastLengthIff`, `LongHeader`, `HeadersIff` and `BodyIs` (long responses), `LongLine` and
`FullTable` (long Makefiles), `FindFileResolves` and `PathThroughFileFound`.

## Model

| member | source | states |
|---|---|---|
| `PyRoundTrip.EvalPrinted` | src/cmd_python.c:163-382 | For every tree of the expression grammar, printed with any blanks and followed by any text that does not continue an expression, the evaluator returns the tree's structural meaning and stops exactly in front of that text. The grammar holds names of at most 63 characters (`NameIff`), literals of at most 127 (`LiteralIff`), calls other than input(), and argument texts that close the parentheses they open, those in literals included, within 255 characters: `ArgReadIff` shows that the code asks for exactly this. What the operators of that meaning compute is `PyValues.OrderIs`, `EqualityIs`, `ProductIs`, `DivisionIs`, `SumIs`, `TruthIs` and `NotIs` |
| `PyRoundTrip.EvalWhole` | src/cmd_python.c:379-382 | On its own the printed text of a tree of this grammar is consumed whole |
| `PyRoundTrip.PrimaryPrinted` | src/cmd_python.c:163-273 | Numbers, quoted strings, variables and nested calls of anything but input() are read back as primaries, through parentheses matched by counting, which does not look at quotes (`ArgReadIff`) |
| `PyRoundTrip.MulPrinted` | src/cmd_python.c:278-294 | A printed product evaluates left to right; division and remainder truncate and a zero divisor leaves the left operand |
| `PyRoundTrip.AddPrinted` | src/cmd_python.c:297-318 | A printed sum evaluates left to right over products, with + turning to text concatenation unless both sides are numbers |
| `PyRoundTrip.CmpPrinted` | src/cmd_python.c:321-344 | A printed comparison takes one operator, the two-character ones first, and leaves the rest of the text. What the operators of that meaning compute is `PyValues.OrderIs`, `EqualityIs`, `ProductIs`, `DivisionIs`, `SumIs`, `TruthIs` and `NotIs` |
| `PyRoundTrip.NotPrinted` | src/cmd_python.c:347-356 | A printed `not` negates one comparison |
| `PyRoundTrip.BoolPrinted` | src/cmd_python.c:359-376 | `and` and `or` associate to the left on one common level |
| `PyRoundTrip.MatchingSkips` | src/cmd_python.c:204-212 | The argument collector passes over any text whose parentheses pair up and stops at the one that closes the call |
| `PyRoundTrip.PrintPairs` | src/cmd_python.c:204-212 | When the parentheses inside every single literal pair up, those of the whole printed expression do: such expressions may stand as any argument |
| `PyLayout.AtoiItoa` | src/cmd_python.c:77-94 | py_atoi undoes py_itoa for every integer, also behind a space |
| `PyLayout.IntOfStr` | src/cmd_python.c:220-232 | int(str(e)) means what e means, for every integer-valued e |
| `PyLayout.RangeEvaluated` | src/cmd_python.c:234-239 | range(...) evaluates to its marked raw argument text, whatever else that text says, as long as it closes the parentheses it opens (`ArgReadIff`) |
| `PyLayout.BoundsRead` | src/cmd_python.c:579-594 | The bounds a for loop takes from that text are those of the printed range, one argument or two |
| `PyLayout.ArmHeadRead` | src/cmd_python.c:500-508 | The condition of a printed if or elif header is cut at its colon and evaluates to the meaning of its tree, when the condition's own text has no colon, in a literal or not, and fits 255 characters: exactly the condition of `CondIff` |
| `PyLayout.WhileHeadRead` | src/cmd_python.c:547-553 | The same for a while header, with the same limit |
| `PyLayout.ForHeadRead` | src/cmd_python.c:563-594 | A printed for header yields its variable and its bounds |
| `PyLayout.ForTextRead` | src/cmd_python.c:563-577 | The same for any text inside range(): the loop variable, and the text as it was packed |
| `PyLayout.AssignRead` | src/cmd_python.c:451-469 | Executing a printed assignment binds the meaning of its expression to its name, cut to 31 characters |
| `PyLayout.PrintRead` | src/cmd_python.c:419-449 | Executing a printed print line outputs the meanings of its arguments with a space between them and a newline, when no argument's text has a comma, in a literal or not, and each fits 127 characters (exactly: `PartIff`), and the whole closes its parentheses within 255 (`PrintTextIff`) |
| `PyBlock.BlockEndIsBlock` | src/cmd_python.c:401-410 | The range found behind a header is a block (deeper than the header up to the next line that is not) and the only one starting there |
| `PyBlock.BodyInsideBlock` | src/cmd_python.c:401-410 | Every body found from a header inside a block lies inside that block |
| `PyBlockProof.ProgramRuns` | src/cmd_python.c:478-609 | Running the lines printed from any well-formed program (nested if/elif/else, while, for, assignments, prints, blank and comment lines anywhere) gives the variables and output of its structural meaning, from any state. Well-formed excludes calls of input(), and what the scans of raw text cut: a colon in a condition, a comma in a print argument, unpaired parentheses in an argument, each also inside a literal (exactly: `CondIff`, `PartIff`, `ArgReadIff`); names assigned to or looped over that begin with "else" or have more than 31 characters (`AssignmentEffect`, `AssignmentIff`, `LongLoop`); names read of more than 63 and literals of more than 127 (`NameIff`, `LiteralIff`) |
| `PyBlockProof.BlockRuns` | src/cmd_python.c:478-609 | The same for a block in the middle of a script, with the same limits |
| `PyBlockProof.StmtRuns` | src/cmd_python.c:478-609 | The same for one statement, with the same limits: its lines are run and the executor goes on at what follows |
| `PyBlockProof.ArmRuns` | src/cmd_python.c:500-541 | From an if or elif header exactly one arm runs |
| `PyBlockProof.ChainRuns` | src/cmd_python.c:523-539 | When a condition fails the rest of the chain decides |
| `PyBlockProof.ChainSkipped` | src/cmd_python.c:513-522 | After the arm that ran, all later arms of the chain are passed over |
| `PyBlockProof.LoopRuns` | src/cmd_python.c:554-559 | A while loop runs its body while its condition holds, at most 100000 rounds |
| `PyBlockProof.RangeRuns` | src/cmd_python.c:595-599 | A for loop runs its body once for every number of its range, in order |
| `PyBlockProof.AssignmentEffect` | src/cmd_python.c:451-469 | What an assignment at any line of any script does: a line whose name begins with "else" is silently passed over, any other binds at most the first 31 characters of its name |
| `PyBlockProof.AssignmentIff` | src/cmd_python.c:451-469 | For a new variable with room in the store, that is the assignment's meaning exactly when the name does not begin with "else" and has at most 31 characters |
| `PyLimits.PartIff` | src/cmd_python.c:431-441 | The first part print cuts off is its first argument exactly when that has no comma and at most 127 characters |
| `PyLimits.PrintedLiteral` | src/cmd_python.c:431-447 | print shows a literal as it stands exactly when there is no comma in it |
| `PyLimits.HelloWorld` | src/cmd_python.c:431-447 | The line print("Hello, world") outputs `Hello 0`, and not what it means |
| `PyLimits.CondIff` | src/cmd_python.c:500-507 | The condition taken from an if, elif or while header is the printed one exactly when that has no colon and at most 255 characters |
| `PyLimits.CutCondition` | src/cmd_python.c:500-508 | When the first colon stands in a leading literal, the condition is that literal cut there, which is false |
| `PyLimits.CutArm` | src/cmd_python.c:500-541 | Such an if or elif line never takes its arm, wherever it stands and whatever its condition means |
| `PyLimits.CutWhile` | src/cmd_python.c:547-561 | Such a while loop runs no round |
| `PyLimits.ColonScript` | src/cmd_python.c:500-541 | The two lines printed from if "a:b" == "a:b" with an assignment below it leave the variables alone, where its meaning assigns |
| `PyLimits.ArgReadIff` | src/cmd_python.c:204-213 | The collector of a call takes the whole argument text and leaves what follows exactly when that text closes the parentheses it opens, those in literals included, and has at most 255 characters |
| `PyLimits.ArgReadAlways` | src/cmd_python.c:204-213 | That it does so whatever follows the call is the same condition, for every argument text |
| `PyLimits.PrintTextIff` | src/cmd_python.c:421-430 | The text print collects, exactly: as for a call, but at the very size of the buffer it may leave parentheses open |
| `PyLimits.ParenScript` | src/cmd_python.c:204-219 | The line x = len(")") sets x to 0, where its meaning is 1 |
| `PyLimits.AtoiPrinted` | src/cmd_python.c:77-82 | py_atoi reads a printed expression as the number at its very front, or 0 |
| `PyLimits.RangeOfExpr` | src/cmd_python.c:576-594 | range(e) gives the loop the bounds its meaning calls for exactly when e's first number is e's value |
| `PyLimits.RangeOfTwo` | src/cmd_python.c:576-594 | Of two bounds each is read so |
| `PyLimits.VariableRangeRunsNone` | src/cmd_python.c:563-602 | A loop over range(n) with a variable n runs no round, whatever n holds |
| `PyLimits.LiteralIff` | src/cmd_python.c:168-175 | A literal is read whole exactly when it has at most 127 characters |
| `PyLimits.NameIff` | src/cmd_python.c:195-196 | A variable is looked up under its name exactly when that has at most 63 characters |
| `PyLimits.LongName` | src/cmd_python.c:459-466 | The two lines name = 1 and x = name leave 0 in x for every new name of 32 to 63 characters, where their meaning leaves 1 |
| `PyLimits.LongScript` | src/cmd_python.c:459-466 | So do they for a name of 32 letters |
| `PyLimits.LongLoop` | src/cmd_python.c:563-577 | A for loop over such a name takes its 32nd character and what follows for the iterable, and runs no round unless that names a variable |
| `PyValues.OrderIs` | src/cmd_python.c:337-340 | On text and in plain arithmetic, for all operands: `<`, `>`, `<=` and `>=` between two printed sums give 1 exactly when the numbers of both sides stand in that order, else 0; a text counts as 0 |
| `PyValues.EqualityIs` | src/cmd_python.c:327-336 | `==` and `!=` compare the texts when the left side is a text, the numbers otherwise |
| `PyValues.NumbersCompare` | src/cmd_python.c:321-344 | For all integers a and b, the printed `a < b` evaluates to 1 exactly when a < b, and likewise the five other comparisons |
| `PyValues.ProductIs` | src/cmd_python.c:278-294 | `*` multiplies two numbers and leaves the left side otherwise |
| `PyValues.DivisionIs` | src/cmd_python.c:285-290 | `/` and `%` of two numbers are a quotient and a remainder with a == b * q + r, |r| < |b| and the sign of a; a zero divisor and other kinds leave the left side |
| `PyValues.DividedOnce` | src/cmd_python.c:285-290 | That equation has no other solution |
| `PyValues.SumIs` | src/cmd_python.c:297-318 | `+` and `-` of two numbers are sum and difference; `+` with a text puts the text of the left side in front of that of the right; `-` with a text leaves the left side |
| `PyValues.NumbersCompute` | src/cmd_python.c:278-318 | For all integers a and b the printed `a * b`, `a + b` and `a - b` evaluate to product, sum and difference |
| `PyValues.TextsJoin` | src/cmd_python.c:297-336 | Two quoted texts are joined left before right by `+` and compared by `==` and `!=` |
| `PyValues.TruthIs` | src/cmd_python.c:359-376 | `and` and `or` give 1 exactly when both or one of the sides has a number other than 0 |
| `PyValues.NotIs` | src/cmd_python.c:347-356 | `not` gives 1 exactly when the number behind it is 0 |
| `PyValues.BuiltInsAre` | src/cmd_python.c:215-262 | len is the length of a text and 0 for a number, str the digits of a number and a text itself, int the number a text starts with and a number itself; an unknown name gives None |
| `PyValues.IntReads` | src/cmd_python.c:77-82 | int on a text of digits, with a minus sign or a space in front, is the decimal number they stand for |
| `PyValues.VariablesAre` | src/cmd_python.c:115-134 | A variable has the value last set and setting it changes no other; one never set is 0, and a thirty-third is dropped |
| `PyValues.PrintIs` | src/cmd_python.c:431-447 | print shows a number in digits, a text as it stands, nothing for None, and ends the line |
| `PyValues.EndlessScript` | src/cmd_python.c:554-559 | The script `while 1:` with `x = x + 1` in its body, from x = 0, ends with x = 100000 |
| `PyRuns.ArmsDecide` | src/cmd_python.c:500-541 | The arm of an if or elif runs exactly when the number its condition evaluates to is not 0, else the rest of the chain decides; else always runs |
| `PyRuns.RoundsDecide` | src/cmd_python.c:554-559 | A round of a while loop runs exactly when the number its condition evaluates to is not 0 and one of the 100000 is left |
| `PyRuns.CountingScript` | src/cmd_python.c:547-561 | The script `while i < n:` with `i = i + 1` in its body, from i = k, ends with i = n for all n > k within 100000 rounds, with k + 100000 beyond, and with k otherwise |
| `PyRuns.PrintingScript` | src/cmd_python.c:563-602 | The script `for i in range(lo, hi):` with `print(i)` in its body outputs lo, lo + 1, ..., hi - 1, each on a line |
| `PyLines.NothingRead` | src/cmd_python.c:163-273 | Where no value and no operator begins the value is None and the text stays where it is |
| `PyLines.GroupsUnread` | src/cmd_python.c:163-273 | Parentheses do not group: every text that opens one evaluates to None |
| `PyLines.RestStays` | src/cmd_python.c:379-382 | A number followed by a text that neither begins a value nor is an operator evaluates to the number and leaves that text |
| `PyLines.AssignsIff` | src/cmd_python.c:451-458 | A line is an assignment exactly when the first of = : in it is an = that has something in front of it, and not <, > or ! right there |
| `PyLines.ComparisonScript` | src/cmd_python.c:451-469 | So the one-line script x == e assigns None to x, for every name x and whatever e is |
| `PyLines.CommentsIdle` | src/cmd_python.c:412-416 | A blank line, and one whose first character behind blanks is #, does nothing |
| `TextFacts.ItoaIs` | src/cmd_python.c:83-94 | py_itoa gives the decimal digits of a number, behind a minus sign when it is negative |
| `TextFacts.ClassesAre` | src/cmd_python.c:43-47 | The character classes of the scanner by their ASCII codes: digits, letters and the underscore |
| `PyInterp.VarStore.Get` | src/cmd_python.c:115-119 | Searching the two arrays finds the value the map of variables holds |
| `PyInterp.VarStore.Set` | src/cmd_python.c:121-134 | A known variable is overwritten, a new one added, the thirty-third dropped |
| `PyInterp.Interpreter.EvalPrimary` | src/cmd_python.c:163-194 | The recursive evaluator over the text computes the value and the rest the specification functions give, and ends |
| `PyInterp.Interpreter.EvalNamed` | src/cmd_python.c:195-269 | The same for identifiers and calls |
| `PyInterp.Interpreter.EvalMulDiv` | src/cmd_python.c:278-294 | The product loop, against its specification |
| `PyInterp.Interpreter.EvalAddSub` | src/cmd_python.c:297-318 | The sum loop, against its specification |
| `PyInterp.Interpreter.EvalCmp` | src/cmd_python.c:321-344 | The comparison, against its specification. What the operators of that meaning compute is `PyValues.OrderIs`, `EqualityIs`, `ProductIs`, `DivisionIs`, `SumIs`, `TruthIs` and `NotIs` |
| `PyInterp.Interpreter.EvalNot` | src/cmd_python.c:347-356 | The negation, against its specification |
| `PyInterp.Interpreter.EvalExpr` | src/cmd_python.c:359-382 | The and/or loop, against its specification |
| `PyInterp.FindMatching` | src/cmd_python.c:204-212 | The collecting loop stops at the parenthesis that brings the depth to zero |
| `PyInterp.PrintInt` | src/cmd_python.c:85-94 | Digits written backwards into a scratch buffer and turned round are the decimal text |
| `PyInterp.Interpreter.FindBlockEnd` | src/cmd_python.c:401-410 | The loop finds the block end |
| `PyInterp.Interpreter.PrintValues` | src/cmd_python.c:431-447 | The splitting loop outputs the evaluated parts |
| `PyInterp.Interpreter.ExecLine` | src/cmd_python.c:413-473 | One line changes variables and output as specified |
| `PyInterp.Interpreter.ExecBlock` | src/cmd_python.c:478-609 | The executor moving a line index does what the specification says on every script, well-formed or not, and ends on every script |
| `PyInterp.Interpreter.ExecArm` | src/cmd_python.c:500-541 | The if/elif part of it |
| `PyInterp.Interpreter.ExecWhile` | src/cmd_python.c:554-559 | The capped loop |
| `PyInterp.Interpreter.ExecFor` | src/cmd_python.c:595-599 | The range loop |
| `MakeProof.EveryBuild` | src/cmd_make.c:306-362 | Whatever commands return: targets are marked in topological order, each once and after its known dependencies; what is marked is dependency-closed and reachable from the goal; and the commands run are exactly the recipes of the marked targets in that order, followed, on a failure, by the part of one recipe up to the refused command |
| `MakeProof.SuccessfulBuild` | src/cmd_make.c:306-362 | A build that returns 0 from a fresh start built exactly the known targets its goal reaches, and those are acyclic |
| `MakeProof.EndsIffAcyclic` | src/cmd_make.c:306-362 | When no command is refused: on acyclic rules the call stack never needs more frames than the goal reaches and the build returns 0; on cyclic ones no bounded stack is enough |
| `MakeProof.AcyclicBuildEnds` | src/cmd_make.c:306-362 | With arbitrary command results a build of acyclic rules ends within that stack |
| `MakeProof.BuildKeeps` | src/cmd_make.c:306-362 | What one call keeps, with any unfinished targets below it on the stack: the order stays topological and only grows, and a return of 0 means the target is marked |
| `MakeProof.BuildRan` | src/cmd_make.c:326-358 | What one call ran: the recipes it marked, in that order, up to the first refusal |
| `MakeProof.RunAllRuns` | src/cmd_make.c:327-358 | A recipe runs its commands in order until one returns something other than 0 and -255 |
| `MakeProof.BuildStaysInside` | src/cmd_make.c:306-362 | A build touches nothing outside a dependency-closed set that holds its goal |
| `MakeBuild.CycleNotDone` | src/cmd_make.c:306-324 | No target of a dependency cycle is ever marked |
| `MakeOrder.ListedOrder` | src/cmd_make.c:318-325 | The dependencies of a goal are built in the order they are listed: each comes before any target that it and those ahead of it do not need |
| `MakeOrder.UnknownGoal` | src/cmd_make.c:307-313 | A goal that agrees with no target up to letter case is refused with -1, and nothing is run |
| `MakeOrder.CommandsAre` | src/cmd_make.c:327-345 | The shell is given each command of a recipe without one @ in front |
| `MakeRoundTrip.ParsePrinted` | src/cmd_make.c:172-301 | Reading a printed Makefile (rules, recipes, definitions, .PHONY, comments), from any point on, has exactly the effect of its items: targets, dependencies and commands with every reference replaced by its value at that line. The order of a recipe and the value of a reference are said without the parser in `MakeMeaning.RuleIsRead` and `LastDefinition` |
| `MakeRoundTrip.ExpandPrinted` | src/cmd_make.c:118-139 | One pass of expansion gives the text with its references replaced by values that are not read again, cut at the buffer size |
| `MakeRoundTrip.DepsPrinted` | src/cmd_make.c:274-292 | Printed dependencies are read back one by one |
| `MakeRoundTrip.TabHangs` | src/cmd_make.c:277-292 | Behind n dependencies a tab keeps the dependency loop from ever ending exactly when the table of eight still has room |
| `MakeRoundTrip.NoTabEnds` | src/cmd_make.c:277-292 | Without a tab the dependency loop always ends |
| `MakeRoundTrip.RuleLine` | src/cmd_make.c:249-294 | A printed rule line adds its target |
| `MakeRoundTrip.RecipeLine` | src/cmd_make.c:199-209 | A printed recipe line adds its expanded command, the ninth being dropped. The order of a recipe and the value of a reference are said without the parser in `MakeMeaning.RuleIsRead` and `LastDefinition` |
| `MakeRoundTrip.DefineLine` | src/cmd_make.c:227-247 | A printed definition sets its variable and closes the current rule |
| `MakeRoundTrip.PhonyLine` | src/cmd_make.c:211-225 | A printed .PHONY line marks the target of that name |
| `MakeMeaning.RuleIsRead` | src/cmd_make.c:199-293 | Reading a printed rule and its recipe, with blank lines, comments and .PHONY lines between, adds one target with its name, its dependencies in order and, as commands, the values of its recipe lines in the order of the lines, the first eight of them; no other target changes |
| `MakeMeaning.LastDefinition` | src/cmd_make.c:227-246 | A reference has the value of the last definition of its name: the text as it was worth at the definition, cut at 127 characters, without the blanks, tabs and line ends behind it and nothing else taken off |
| `MakeMeaning.SetIs` | src/cmd_make.c:94-116 | Setting a variable gives that value to every name that agrees with it up to letter case and leaves all others; behind 32 variables a new one is dropped |
| `MakeMeaning.NamesAgree` | src/cmd_make.c:108-169 | Names that agree up to letter case stand for the same value and the same target, others never for the same target; an unknown name stands for nothing |
| `MakeMeaning.TrimEndIs` | src/cmd_make.c:76-82 | Trimming takes off blanks, tabs and line ends at the end and nothing else |
| `MakeMeaning.FoundIs` | src/cmd_make.c:162-169 | A name finds the first target that agrees with it up to letter case |
| `MakeMeaning.MarkIs` | src/cmd_make.c:211-224 | A .PHONY line marks the first target that agrees with its name and changes nothing else |
| `MakeMeaning.GoalIs` | src/cmd_make.c:262-265 | The goal is the first target of the file if its name does not start with a dot |
| `MakeMeaning.LineIff` | src/cmd_make.c:180-188 | A line is read whole exactly when it has at most 255 characters |
| `MakeMeaning.LongLine` | src/cmd_make.c:180-190 | Of a longer line the first 255 characters are read as a line, the next one is dropped, and the rest is read as the next line |
| `MakeMeaning.PhonyIff` | src/cmd_make.c:66-74 | A line is a .PHONY line exactly when it starts with that word and its colon, up to letter case |
| `MakeMeaning.FullTable` | src/cmd_make.c:253-254 | Behind 32 targets a further rule is passed over; the recipe under it then goes to the last target there was |
| `MakeMeaning.OpenReference` | src/cmd_make.c:118-139 | A reference that is never closed is read to the end of the line as if it were |
| `MakeMeaning.ReturnDropped` | src/cmd_make.c:180-190 | A carriage return in front of the line end is not part of the line |
| `MakeTool.Variables.Get` | src/cmd_make.c:108-115 | The search through the table, ignoring letter case, gives the map's value or nothing; which names are the same is `MakeMeaning.SetIs` |
| `MakeTool.Variables.Set` | src/cmd_make.c:94-106 | Overwrite, append, or drop when the table is full |
| `MakeTool.Variables.ExpandVars` | src/cmd_make.c:118-139 | The expansion loop, against its specification |
| `MakeTool.SearchTarget` | src/cmd_make.c:162-169 | The first target of a name; which names are the same is `MakeMeaning.FoundIs` |
| `MakeTool.Make.ParseDeps` | src/cmd_make.c:274-292 | The dependency loop; it reports where the source would never end |
| `MakeTool.Make.AddRule` | src/cmd_make.c:249-294 | A rule line written into the next table slot |
| `MakeTool.Make.ReadOne` | src/cmd_make.c:193-297 | One line of a Makefile, in the order of tests of the source. The order of a recipe and the value of a reference are said without the parser in `MakeMeaning.RuleIsRead` and `LastDefinition` |
| `MakeTool.Make.ParseMakefile` | src/cmd_make.c:172-301 | The parser as a whole, against its specification. The order of a recipe and the value of a reference are said without the parser in `MakeMeaning.RuleIsRead` and `LastDefinition` |
| `MakeTool.Make.ResetBuilt` | src/cmd_make.c:500-503 | All flags are cleared before a build |
| `MakeTool.Make.BuildTarget` | src/cmd_make.c:306-362 | The recursive builder with its flags does what the specification says, for every stack depth |
| `MakeTool.Make.RunCommands` | src/cmd_make.c:327-358 | The recipe loop |
| `FsRuns.StepRefines` | src/commands.c:143-244 | Every save, mkdir and touch, on any path, keeps names unique up to letter case exactly when it does not store its path, cut to the 55 characters of a table name, under a name in use; and then it is the abstract operation on a map from names to bytes, with the same return code: a success changes one path, a failure changes no bytes. Which path a name stands for is `FsPaths.PlainPaths` and `FullPathIs`, which entry a path is `FoundIs` |
| `FsRuns.RunRefines` | src/commands.c:143-244 | Over any run content slots stay one-to-one with entries; names end unique exactly when no step of the abstract run collides, and then the map is what the return codes say |
| `FsRuns.ShortPathsClear` | src/commands.c:143-244 | A run on paths of at most 55 characters never collides |
| `FsRuns.StepNames` | src/commands.c:143-244 | Any operation on any path keeps the tables sound and the names in their order, and adds at most its own, cut |
| `FsRuns.StepUnique` | src/commands.c:179-203 | One step breaks uniqueness exactly when it adds an entry whose cut name is in use |
| `FsRuns.LongPathUnique` | src/commands.c:179-203 | For a path of more than 55 characters and a table with room, saving, mkdir and touch each keep names unique exactly when the first 55 characters are no name in use |
| `FsRuns.SaveRefines` | src/commands.c:143-244 | Saving: creation, overwriting, the full table and the full content store (where a new name remains without bytes) |
| `FsRuns.AddRefines` | src/commands.c:1943-1985 | mkdir, its absolute form and touch add a name without bytes or refuse |
| `FsRuns.ReadIsView` | src/commands.c:247-344 | Loading a path is looking its name up in the map |
| `FsRuns.StoredIsView` | src/commands.c:346-393 | The stored size of a path: -1 for no name, 0 for a name without bytes, else the number of its bytes |
| `FsRuns.SaveThenLoad` | src/commands.c:143-344 | A saved file reads back exactly when its resolved path fits the 55 characters of a table name. Which path a name stands for is `FsPaths.PlainPaths` and `FullPathIs`, which entry a path is `FoundIs` |
| `FsRuns.LongPathBreaksUniqueness` | src/commands.c:179-203 | So saving the same long path twice leaves two entries of one name |
| `FsRuns.ChunksConcatenate` | src/commands.c:396-458 | Range reads of any chunk size put the file together again |
| `FsPaths.PlainPaths` | src/commands.c:148-177 | Without backslashes, the path of a name is the directory followed by the name when it is relative and the name itself when it is absolute; what saves and loads also drops a drive prefix first |
| `FsPaths.FullPathIs` | src/commands.c:1895-1912 | With backslashes each becomes a slash in its place; an absolute name is cut at 255 characters |
| `FsPaths.ResolveIs` | src/commands.c:151-155 | Saving and loading drop the drive letter and the colon in front of a slash or backslash |
| `FsPaths.SavedInDirectory` | src/commands.c:143-244 | After a relative name is saved in a directory, the path directory + name reads as those bytes, up to 8192 |
| `FsPaths.ReadInDirectory` | src/commands.c:247-331 | The same name, in either letter case, reads them back in that directory; in another directory it is another entry, and reads as the path directory + name there does |
| `FsPaths.LoadEdges` | src/commands.c:396-458 | A buffer without room gets nothing; a read from an offset gets the bytes from there on, as many as fit, and nothing at the end of the file or behind it |
| `FsPaths.FoundIs` | src/commands.c:179-188 | A path finds the first entry whose name agrees with it up to letter case, position by position, and none exactly when none does |
| `FsPaths.SameCase` | src/commands.c:464-476 | Paths that agree up to letter case find the same entry and read the same bytes |
| `FsPaths.OtherCase` | src/commands.c:464-476 | Paths that do not agree never find the same entry |
| `FsPaths.MkdirMakes` | src/commands.c:1923-1985 | mkdir makes an empty directory (type 1, attribute 0x10) under directory + name exactly when the table has room and the path is new, and refuses with -1 and no change otherwise |
| `FsPaths.MkdirAbsMakes` | src/commands.c:1987-2025 | The absolute form does so under the path, with -1, -2 and -3 for a relative path, a full table and a known path |
| `FsPaths.TouchMakes` | src/commands.c:2027-2065 | touch makes an empty plain file (type 0, attribute 0x20) under directory + name, and leaves a known one alone |
| `FsPaths.EmptyNames` | src/commands.c:1923-2065 | Both refuse an empty name |
| `FsPaths.SaveMakes` | src/commands.c:179-244 | A save makes a plain file of the size of its bytes, or changes the size of a known entry alone |
| `FsRoundTrip.SaveThenBoot` | src/commands.c:552-833 | Loading at boot what was saved over any disk restores entries, users, identity, directory and the bytes of every non-empty file, and leaves the disk alone |
| `FsRoundTrip.PathsAfterBoot` | src/commands.c:787-830 | Seen through paths: non-empty plain files read the same after a reboot, everything else does not read at all |
| `FsRoundTrip.LabelDecides` | src/commands.c:698-720 | What the loader does with a volume saved with an empty label: it saves an empty table first and every entry is lost; with a label all come back |
| `FsLabel.LabelStays` | src/commands.c:3184-3194 | From power-on, whatever loads, LABEL and other commands happen, the label is never empty and fits its sector |
| `FsLabel.RelabelIs` | src/commands.c:3184-3194 | LABEL sets the first twelve characters of its text in capitals and changes nothing else |
| `FsLabel.ReachedRestores` | src/commands.c:552-833 | So in every state reached from power-on a volume the disk can keep comes back from it |
| `FsRoundTrip.NormalIff` | src/commands.c:736-759 | The loader keeps a name unchanged exactly when it has no drive prefix, no backslash and, the root aside, no slash at its end |
| `FsRoundTrip.EntryRead` | src/commands.c:722-767 | A saved entry comes back with its name cleaned up and all else as it was |
| `FsRoundTrip.DirRead` | src/commands.c:560-571 | A directory comes back over the boot directory exactly when it is absolute |
| `FsRoundTrip.UsersRead` | src/commands.c:603-624 | The users come back, empty records left out |
| `FsRoundTrip.ContentsRead` | src/commands.c:787-830 | The loader builds one content slot with the right bytes for each non-empty file |
| `FsRoundTrip.SavedContents` | src/commands.c:626-672 | After saving, each file's sixteen sectors hold its bytes: no two slots and no table share a sector |
| `FsRoundTrip.SavedTables` | src/commands.c:572-624 | After saving, directory, volume, entry and user sectors hold what was written |
| `FsFormat.TableSaved` | src/commands.c:579-601 | Byte by byte: sector 1000 + i holds entry i, 56 bytes of name, the size, the kind, the attribute and the parent, lowest bytes first, and zeros; the sectors behind the last entry are zeros |
| `FsFormat.UsersSaved` | src/commands.c:603-624 | Sector 1512 + i holds the 64 bytes of user i, and zeros behind the last |
| `FsFormat.DirSaved` | src/commands.c:560-570 | Sector 499 holds the first 256 characters of the directory |
| `FsFormat.IdentitySaved` | src/commands.c:572-577 | Sector 998 holds the label in its first twelve bytes and the serial number from byte 16 on |
| `FsFormat.ContentSaved` | src/commands.c:626-675 | Byte j of the content of entry i is byte j of the sixteen sectors from 1800 + 16 i on, with zeros behind it |
| `FsFormat.OthersKept` | src/commands.c:556-675 | Every other sector keeps what it held |
| `FsFormat.EntryLoaded` | src/commands.c:729-734 | The loader reads an entry from the same bytes |
| `FsFormat.NormalizeIs` | src/commands.c:736-759 | It drops a drive prefix of the name, turns its backslashes and takes one slash off the end of a longer name |
| `FsFormat.TableLoaded` | src/commands.c:722-734 | Entry by entry from sector 1000 on |
| `FsFormat.TableEnds` | src/commands.c:762-766 | The table ends at the first sector that starts with a zero, or with 512 entries |
| `FsFormat.DirLoaded` | src/commands.c:682-696 | The stored directory is taken when it is absolute; it replaces the front of a longer one and leaves the rest |
| `FsReboot.RunThenReboot` | src/commands.c:143-833 | From any labelled volume with unique names and any directory: after a run that does not collide and whose stored names the disk keeps, whatever its return codes, the volume saved over any disk and booted again reads, at every path, as the map of the abstract run (but for empty files and for bytes saved to a directory) exactly when every non-empty file has a content slot and is among the first 256, or has none and is not |
| `FsReboot.RunLasts` | src/commands.c:143-833 | That is so when the volume starts with a slot for each non-empty file and no save of the run loses its bytes; saves refused for a full table, without bytes or on a directory do no harm |
| `FsReboot.StepContents` | src/commands.c:143-244 | Of all operations only a save that loses its bytes leaves a non-empty file without a slot |
| `FsReboot.StepEntries` | src/commands.c:143-244 | Every step on a name the disk keeps, refused or not, leaves a table the disk keeps |
| `FsReload.ReloadReads` | src/commands.c:626-672 | Save any labelled volume over any disk and boot: a path reads exactly when its entry is among the first 256 non-empty plain files, and then as its bytes, or, when it has no content slot, as what its sectors held before |
| `FsReload.RebootReads` | src/commands.c:787-830 | A path reads after the reboot as before (but for empty files and directories) exactly when its entry has a slot if and only if the loader gives it one |
| `FsReload.RebootIsView` | src/commands.c:787-830 | All paths read so exactly when that holds of every entry |
| `FsReload.LoadedContents` | src/commands.c:787-830 | The loader gives a slot to exactly the first 256 non-empty plain files |
| `FsReload.OldSectors` | src/commands.c:626-672 | The sectors of an entry without a slot are not written by a save |
| `FsRefused.RefusedUnnoticed` | src/commands.c:206-240 | After 256 saved files the save of one more is refused; the next boot reads the 256 and, as before, nothing of it |
| `FsRefused.RefusedHarms` | src/commands.c:206-240 | After an empty file and 256 saved ones a save to the empty one is refused; the next boot reads its first sector's old byte as its content, and nothing of the last file, which had its bytes |
| `FsReboot.SaveContentsIff` | src/commands.c:206-240 | A save leaves a non-empty file without a content slot exactly when it has bytes for a plain file without a slot, found or new in a table with room, and the content store is full |
| `FsDisk.WordRead` | src/commands.c:576 | A little-endian word reads back |
| `FileSystem.AurionFs.SaveFile` | src/commands.c:143-244 | The in-place save over the tables, ending with the disk written. Which path a name stands for is `FsPaths.PlainPaths` and `FullPathIs`, which entry a path is `FoundIs` |
| `FileSystem.AurionFs.LoadFile` | src/commands.c:247-344 | The in-place load; -1 for a buffer without room. Which path a name stands for is `FsPaths.PlainPaths` and `FullPathIs`, which entry a path is `FoundIs` |
| `FileSystem.AurionFs.LoadFileRange` | src/commands.c:396-458 | The in-place range load; -1 for a buffer without room. Which path a name stands for is `FsPaths.PlainPaths` and `FullPathIs`, which entry a path is `FoundIs` |
| `FileSystem.AurionFs.StoredContentBytes` | src/commands.c:346-393 | The in-place size query. Which path a name stands for is `FsPaths.PlainPaths` and `FullPathIs`, which entry a path is `FoundIs` |
| `FileSystem.AurionFs.MakeDir` | src/commands.c:1923-1964 | mkdir over the tables. Which path a name stands for is `FsPaths.PlainPaths` and `FullPathIs`, which entry a path is `FoundIs` |
| `FileSystem.AurionFs.MakeDirAbs` | src/commands.c:1968-1986 | Its absolute form, with its three error codes |
| `FileSystem.AurionFs.TouchFile` | src/commands.c:2023-2065 | touch over the tables. Which path a name stands for is `FsPaths.PlainPaths` and `FullPathIs`, which entry a path is `FoundIs` |
| `FileSystem.AurionFs.SaveToDisk` | src/commands.c:556-675 | The saver: every sector of the disk is what the specification says |
| `FileSystem.AurionFs.SaveContents` | src/commands.c:626-672 | Its loop over the content slots |
| `FileSystem.AurionFs.LoadFromDisk` | src/commands.c:678-833 | The loader: tables, directory, identity and, without a label, the disk are as specified |
| `FileSystem.AurionFs.ReadTable` | src/commands.c:722-768 | Its entry loop |
| `FileSystem.AurionFs.ReadContents` | src/commands.c:787-830 | Its content loop |
| `Factor.Factorize` | src/commands.c:5425-5446 | For every 32-bit n of at least 2 a non-decreasing list of primes with product n, although the loop test squares modulo 2^32 |
| `Factor.DivideOut` | src/commands.c:5433-5439 | The inner loop divides one divisor out completely |
| `Factor.RestIsPrime` | src/commands.c:5431 | Whenever the loop test fails, wrapped or not, what is left is 1 or a prime |
| `Factor.StrToInt` | src/commands.c:502-511 | The argument is its leading digits, accumulated modulo 2^32 |
| `Factor.ArgumentIs` | src/commands.c:502-511 | The digits in front of the argument are read as the decimal number they stand for |
| `Factor.FactorizationUnique` | src/commands.c:5425-5446 | Two such lists with one product are equal: the output is the prime factorization |
| `Factor.PrimeInProduct` | src/commands.c:5425-5446 | A prime divides the product of a list of primes exactly when it is in the list: the primes printed are all there are |
| `GlMatrix.Multiply` | AurionGL/auriongl.c:288-300 | The nested loops fill in the matrix product |
| `GlMatrix.MulAssociative` | AurionGL/auriongl.c:288-300 | The product is associative |
| `GlMatrix.IdentityIsNeutral` | AurionGL/auriongl.c:279-300 | The identity is neutral on both sides |
| `GlMatrix.ApplyProduct` | AurionGL/auriongl.c:302-309 | Transforming a vector by a product is transforming it twice |
| `GlMatrix.TransposeProduct` | AurionGL/auriongl.c:2708-2715 | Transposing turns a product round |
| `GlInverse.Invert` | AurionGL/auriongl.c:2670-2706 | The method, against the cofactor specification |
| `GlInverse.InverseInverts` | AurionGL/auriongl.c:2670-2706 | Whenever the determinant is not zero the result is an inverse on both sides, over the reals |
| `GlInverse.InvertibleIff` | AurionGL/auriongl.c:2670-2706 | A matrix has an inverse at all exactly when the computed determinant is not zero, and exactly then the function returns one |
| `GlInverse.InverseUnique` | AurionGL/auriongl.c:2670-2706 | Whatever undoes a matrix from either side is what the function returns |
| `GlInverse.CofactorsCols` | AurionGL/auriongl.c:2675-2692 | Cofactors times columns: the determinant on the diagonal, zero elsewhere |
| `GlInverse.CofactorsRows` | AurionGL/auriongl.c:2675-2692 | Cofactors times rows: the same |
| `GlRotation.RotationInverse` | AurionGL/auriongl.c:360-393 | A rotation about a unit axis is rigid: its transpose undoes it and is what the inverse returns |
| `GlRotation.RotationTurns` | AurionGL/auriongl.c:360-393 | Where a rotation takes a vector, by the axis-angle formula |
| `GlPipeline.CacheHolds` | AurionGL/auriongl.c:939-1161 | In every state reached by any calls the cached product is projection times model view and no stack is over its limit |
| `GlPipeline.VertexProjected` | AurionGL/auriongl.c:1258-1292 | A vertex submitted after any calls is placed by the model view first and the projection second |
| `GlPipeline.TranslatedVertex` | AurionGL/auriongl.c:1065-1080 | A translation called for is applied to a vertex before everything called for earlier |
| `GlPipeline.PopRestores` | AurionGL/auriongl.c:970-1023 | A push and its matching pop restore matrix and stack, whatever balanced calls and mode switches stand between, as long as the nesting fits the 31 entries |
| `GlPipeline.PushPopIff` | AurionGL/auriongl.c:970-1023 | On a full stack the push is lost: push and pop restore the matrix exactly when there was room or the top of the stack equals it |
| `GlPipeline.FullStackLoses` | AurionGL/auriongl.c:970-1023 | From the start 31 pushes and a load reach such a full stack: a push and a pop then lose the loaded matrix |
| `GlPipeline.MultUndone` | AurionGL/auriongl.c:1045-1063 | Multiplying by an invertible matrix and by its inverse changes nothing |
| `GlMeaning.MultIs` | AurionGL/auriongl.c:1045-1063 | In every mode the new current matrix does to any vector what the old one does to the product of the new matrix with it; nothing else changes |
| `GlMeaning.MultTransposedIs` | AurionGL/auriongl.c:2741-2760 | The same with rows and columns exchanged |
| `GlMeaning.LoadIs` | AurionGL/auriongl.c:953-1043 | Loading forgets what the current matrix did: the loaded one, the identity, or the one with rows and columns exchanged is in force |
| `GlMeaning.TranslateIs` | AurionGL/auriongl.c:1065-1080 | Translating moves every vector before the earlier calls see it |
| `GlMeaning.ScaleIs` | AurionGL/auriongl.c:1100-1115 | Scaling stretches every vector before the earlier calls see it |
| `GlMeaning.ProjectIs` | AurionGL/auriongl.c:1117-1163 | A projection replaces the projection in its own mode and is applied before it in the others; a view does so with the model view |
| `GlMeaning.MultipliedVertex` | AurionGL/auriongl.c:1045-1063 | In model-view mode, the next vertex v after a multiplication by m is placed at mvp (m v) |
| `GlMeaning.ScaledVertex` | AurionGL/auriongl.c:1100-1115 | The same for scaling |
| `GlMeaning.ProjectedVertex` | AurionGL/auriongl.c:1045-1063 | In projection mode the matrix comes between the model view and the projection so far |
| `GlMeaning.ApplyIs` | AurionGL/auriongl.c:302-309 | Applying a matrix is four sums of products, row by row |
| `GlMeaning.ModeIs` | AurionGL/auriongl.c:939-951 | Three codes select a mode; any other is an error that changes nothing else |
| `GlMeaning.StackErrors` | AurionGL/auriongl.c:970-1023 | A push on 31 entries and a pop of none set their error codes and change nothing else |
| `GlMeaning.PrimitivesAre` | AurionGL/auriongl.c:1165-1292 | Vertices count between begin and end alone, at most ten thousand; begin forgets those before it |
| `GlPipeline.TranslationMoves` | AurionGL/auriongl.c:325-331 | A translation moves points and leaves directions alone |
| `GlPipeline.TranslationsAdd` | AurionGL/auriongl.c:325-331 | Two translations one after the other are the translation by their sum |
| `GlPipeline.ScalingStretches` | AurionGL/auriongl.c:395-401 | A scaling scales the coordinates |
| `GlState.State.SetMatrixMode` | AurionGL/auriongl.c:939-951 | Mode switch or error, in place |
| `GlState.State.PushMatrix` | AurionGL/auriongl.c:970-995 | Push onto the stack of the mode in force, or overflow |
| `GlState.State.PopMatrix` | AurionGL/auriongl.c:997-1023 | Pop, or underflow, and the product refreshed |
| `GlState.State.LoadMatrix` | AurionGL/auriongl.c:1025-1043 | The sixteen numbers copied by a loop |
| `GlState.State.MultMatrix` | AurionGL/auriongl.c:1045-1063 | Multiplication on the right. From which side is `GlMeaning.MultIs` |
| `GlState.State.LoadTransposeMatrix` | AurionGL/auriongl.c:2718-2739 | The transposed form |
| `GlState.State.TranslateBy` | AurionGL/auriongl.c:1065-1080 | Translation of the current matrix |
| `GlState.State.ScaleBy` | AurionGL/auriongl.c:1100-1115 | Scaling of the current matrix |
| `GlState.State.SetProjection` | AurionGL/auriongl.c:1117-1126 | Replaces the projection in projection mode and multiplies it in the others |
| `GlState.State.SetView` | AurionGL/auriongl.c:1139-1150 | The same for the model view |
| `GlState.State.SubmitVertex` | AurionGL/auriongl.c:1258-1292 | A vertex transformed into the next buffer slot, or an error |
| `Paint.LineIsStraight` | src/gui_apps.c:777-790 | In all octants the loop plots max(dx, dy) + 1 cells from one end to the other, each a neighbour of the one before, none more than half a cell off the ideal line, and meets the far end exactly at the last |
| `Paint.BrushIs` | src/gui_apps.c:712-728 | A brush of size n covers the cells whose squared distance from it is at most n * (n - 1), one of size 1 or less its own cell |
| `Paint.StaysOnTrack` | src/gui_apps.c:781-789 | The error term stays inside one step of the longer axis, which advances every round |
| `Paint.EndsAt` | src/gui_apps.c:785 | The test for the far end succeeds exactly in the last round |
| `Paint.Canvas.PlotBrush` | src/gui_apps.c:712-727 | The brush colours exactly the canvas cells inside its disc |
| `Paint.Canvas.DrawLine` | src/gui_apps.c:777-790 | Exactly the canvas cells under the brush somewhere along the line are coloured; the loop ends |
| `Paint.Canvas.Drag` | src/gui_apps.c:767-799 | The first contact plots one brush, a further one the line from the last cell |
| `SnakeGame.EveryGameSound` | src/gui_apps.c:2000-2095 | In every state reachable from the opening the body of a started game lies in the grid, its cells are distinct and neighbours one step apart (across the edges only in Easy mode), the direction is a unit vector, the food is in the grid and the length is min(3 + score / 10, 399) |
| `SnakeGame.StepSound` | src/gui_apps.c:2000-2095 | Every key and every redraw keeps that |
| `SnakeGame.KeySteers` | src/gui_apps.c:2031-2035 | A direction key that does not turn the snake back sends the head one cell that way at the next move |
| `SnakeRules.RedrawMoves` | src/gui_apps.c:2038-2096 | A due redraw ends the game at a wall or at the snake itself; onto the food it grows by a cell up to 399, adds 10 to the score and draws the next food from the random numbers; else the head and the tail go one cell on |
| `SnakeRules.IdleRedraw` | src/gui_apps.c:2038-2050 | A redraw that is not due, or of a game that is over, changes nothing |
| `SnakeRules.KeysWhenRunning` | src/gui_apps.c:2029-2036 | The keys of a running game: arrows and w, a, s, d set the direction unless the snake goes the opposite way; no other key does anything |
| `SnakeRules.KeysWhenOver` | src/gui_apps.c:2017-2028 | The keys of a game that is over: Enter, r and R start it again, 1, 2 and 3 in that difficulty; the new snake has three cells in the middle and heads right |
| `SnakeTurns.TwoKeysReverse` | src/gui_apps.c:2031-2035 | From any direction: one key never turns the snake back, and two keys do exactly when the first goes across its course and the second against it |
| `SnakeTurns.SteeredTurns` | src/gui_apps.c:2031-2035 | After any number of keys the snake is turned back exactly when the last key across its course is followed by a key back before any key forth |
| `SnakeTurns.NoneAcross` | src/gui_apps.c:2031-2035 | Without a key across the course it is never turned back |
| `SnakeTurns.MoveStraight` | src/gui_apps.c:2044-2095 | Every move leaves the second cell straight behind the head, across the edges too |
| `SnakeTurns.NeckAhead` | src/gui_apps.c:2031-2058 | Between two moves the keys aim the head at the cell behind it exactly when they turn the snake back |
| `SnakeTurns.TurningBackEnds` | src/gui_apps.c:2031-2072 | Keys that turn it back, in any direction, end the game at the next move |
| `SnakeTurns.EveryGameTurns` | src/gui_apps.c:2000-2095 | Both in every game from its opening: after any events and a move, for any keys up to the next move |
| `SnakeTurns.OpeningTurnsBack` | src/gui_apps.c:2000-2095 | Enter, 'w' and 'a' before the first move end the game at that move |
| `SnakeGame.Game.OnKey` | src/gui_apps.c:2017-2036 | Keys, in place |
| `SnakeGame.Game.Shift` | src/gui_apps.c:2082-2087 | The body array shifted back by one behind a new head |
| `SnakeGame.Game.OnDraw` | src/gui_apps.c:2038-2095 | A redraw: nothing, or one move by the rules |
| `SnakeGame.Game.Restart` | src/gui_apps.c:1990-2015 | A new game |
| `Fat32.ReadFile` | src/fat32.c:376-460 | For offset 0: -1 on an unusable volume or start, else min(size, bytes of the chain, 65536 clusters) bytes, which are exactly that prefix of the chain's clusters; the rest of the buffer is untouched; it ends on every table |
| `Fat32.FatEntry` | src/fat32.c:133-148 | The table entry of a cluster |
| `Fat32Chains.EntryReads` | src/fat32.c:133-148 | The entry lies four bytes times the cluster into the table and its lower 28 bits are the next cluster |
| `Fat32Chains.NextIs` | src/fat32.c:133-148 | The next cluster is the little-endian number at byte 4c of the table without its upper four bits |
| `Fat32Chains.FileByte` | src/fat32.c:422-455 | Byte k of sector s of cluster i of a file is byte k of the sector dataStart + (number of that cluster - 2) * clusterSize + s |
| `Fat32Chains.VisibleIsContent` | src/fat32.c:376-460 | On a well-formed chain a read sees exactly the file's clusters |
| `Fat32Chains.ClustersDisjoint` | src/fat32.c:150-155 | Distinct clusters share no sector |
| `Fat32Chains.TableBelowData` | src/fat32.c:133-155 | No cluster lies in the table |
| `Fat32Chains.EntriesDisjoint` | src/fat32.c:133-148 | Every cluster has its own entry |
| `Fat32Chains.OtherClustersIrrelevant` | src/fat32.c:376-460 | Overwriting any sector of a cluster that is not the file's leaves the file as it reads |
| `Fat32Chains.CycleStops` | src/fat32.c:391 | Where the links run in a circle a read sees 65536 clusters and stops |
| `Fat32Chains.VisibleAtMost` | src/fat32.c:391 | No read sees more |
| `Scrollback.LinesAreLast` | src/scrollback.c:47-71 | After any run the buffer holds exactly the last 500 of the lines handed over, oldest first |
| `Scrollback.RunSound` | src/scrollback.c:47-156 | In every state 0 <= offset <= count <= 500, and a screen is set aside exactly while the view is scrolled |
| `Scrollback.ViewShowsPage` | src/scrollback.c:74-111 | A scrolled view shows the kept lines followed by the screen set aside, from row count - offset on, all but the two marks |
| `Scrollback.LiveScreenRestored` | src/scrollback.c:114-156 | Whatever is captured, printed or scrolled meanwhile, coming back to offset 0 shows the screen exactly as it was left |
| `ScrollbackRules.LinesGrow` | src/scrollback.c:46-71 | A line scrolled off the display or handed over comes behind the others, and at 501 the oldest goes; nothing else changes |
| `ScrollbackRules.UpMoves` | src/scrollback.c:113-129 | Up moves the view five rows, less at the oldest line; the first time it sets the screen aside |
| `ScrollbackRules.DownMoves` | src/scrollback.c:131-155 | Down moves it five rows back, and within five of the end shows the screen set aside; Reset does so at once |
| `ScrollbackRules.PageIs` | src/scrollback.c:73-104 | The page is the kept lines and below them the rows of eighty cells of the screen |
| `ScrollbackBuffer.Buffer.CaptureLine` | src/scrollback.c:47-57 | The top row goes into the ring |
| `ScrollbackBuffer.Buffer.SaveLineOf` | src/scrollback.c:60-71 | A line handed over goes into the ring, with defaults for missing text or attributes |
| `ScrollbackBuffer.Buffer.Redraw` | src/scrollback.c:74-111 | The redraw loops over text memory |
| `ScrollbackBuffer.Buffer.ScrollUp` | src/scrollback.c:114-129 | Five lines up at most |
| `ScrollbackBuffer.Buffer.ScrollDown` | src/scrollback.c:132-142 | Five lines down, and back to the live screen |
| `ScrollbackBuffer.Buffer.ResetScroll` | src/scrollback.c:150-155 | Straight back |
| `HttpRoundTrip.ParsePrinted` | src/http_client.c:255-367 | Parsing a printed response (text of at most 63, at most 16 non-empty headers of at most 255 characters without CR, LF and NUL, body under 32768 bytes) gives back status, text, headers and body, NULs in the body included; only one of less than 16 characters in all is refused |
| `HttpRoundTrip.HeadersRead` | src/http_client.c:304-345 | The header loop reads back printed header lines and stops at the empty line |
| `HttpRoundTrip.SingleLength` | src/http_client.c:317-331 | With a single Content-Length header, name in any case, the parsed length is its number in 32 bits |
| `HttpRoundTrip.LengthsRunTogether` | src/http_client.c:317-331 | A second such header, anywhere among others and whatever its letter case, spaces and tail, does not replace the first: its digits are appended |
| `HttpRoundTrip.LastLengthIff` | src/http_client.c:317-331 | The result is the second number exactly when the first, doubled once for each digit of the second, is a multiple of 2^32; below 2^22 and with at most ten digits that means only when the first is 0 |
| `HttpRoundTrip.LengthAppends` | src/http_client.c:317-331 | What each such header does to the length so far |
| `HttpLimits.LongHeader` | src/http_client.c:304-314 | A header line of more than 255 characters becomes several headers of 255 |
| `HttpLimits.SeventeenthStays` | src/http_client.c:304-345 | Behind sixteen headers, those read before included, the lines from the next one on stay in front of the body |
| `HttpLimits.HeadersIff` | src/http_client.c:304-345 | All header lines come back exactly when there are at most sixteen |
| `HttpLimits.BodyIs` | src/http_client.c:347-364 | A body of 32768 bytes or more is dropped whole, a shorter one is kept whole |
| `HttpLimits.StartsIs` | src/http_client.c:81-95 | A header has the name looked for exactly when its front agrees with it up to letter case |
| `HttpLimits.LineEnds` | src/http_client.c:340-351 | A line end is a carriage return, a line feed, or both in this order |
| `HttpClient.Reply.ParseResponse` | src/http_client.c:255-367 | The parser filling the response structure, for every input: -1 or the specified fields |
| `HttpClient.Reply.ReadHeaders` | src/http_client.c:304-345 | Its header loop |
| `HttpClient.ReadLength` | src/http_client.c:317-331 | Its content-length scan |
| `HttpClient.StartsWithCi` | src/http_client.c:81-95 | The prefix test ignoring letter case |
| `HttpUrl.UrlRead` | src/http_client.c:104-158 | A printed URL is split into its own host, port and path; without a port it is 80 |
| `HttpUrl.SplitUrl` | src/http_client.c:104-158 | The splitter filling both buffers, for every input |
| `IsoTree.FindFileResolves` | src/iso9660.c:108-147 | On an image holding a directory tree, a path (with or without a slash at either end) is found as the node it names, with its extent and size, and not found when it names none, exactly unless it goes on behind something that is not a directory and the walk finds a match there. When names match is `IsoNames.MatchesIs` |
| `IsoTree.WalkResolves` | src/iso9660.c:119-144 | At any depth the walk follows the tree and leaves it at the first record on the path that is no directory, going on there with the components that are left |
| `IsoTree.StoredDirFinds` | src/iso9660.c:50-105 | A search finds the first record of a stored directory with the name, over all its sectors |
| `IsoTree.PickedOnly` | src/iso9660.c:50-105 | With unique names that is the only one |
| `IsoTree.NamesCompareByBase` | src/iso9660.c:66-91 | Letter case, a version and a dot before it or at the end take no part in the comparison. When names match is `IsoNames.MatchesIs` |
| `IsoNames.MatchesIs` | src/iso9660.c:60-95 | A record NAME;1 matches a component exactly when NAME agrees with it position by position, up to letter case |
| `IsoNames.FindFileIgnoresCase` | src/iso9660.c:105-144 | Two paths that agree up to letter case find the same on every image |
| `IsoNames.RecordIs` | src/iso9660.c:13-27 | The extent of a record is two little-endian numbers at its bytes 2 and 10, its name the bytes from 33 on, as many as byte 32 says |
| `IsoNames.SectorIs` | src/iso9660.c:56-98 | In a sector the first record whose name matches is taken, the others are passed over by their lengths, and a length of 0 ends it |
| `IsoNames.RootIs` | src/iso9660.c:107-124 | Sector 16 must say CD001 from its byte 1 on, and the root directory is the record at its byte 156 |
| `IsoNames.SectorsSearched` | src/iso9660.c:47-49 | Of a directory the first 32 sectors at most are searched |
| `IsoTree.FileIsWalked` | src/iso9660.c:119-144 | Behind such a record, at any depth, the walk reads its bytes as records: when they hold a tree, the path goes on in that one |
| `IsoTree.PathThroughFileFound` | src/iso9660.c:119-144 | So on a small image a path through a file is found although nothing stands there |
| `IsoTree.RecordReads` | src/iso9660.c:15-30 | A record laid out by ECMA-119 section 9.1 is read back with its extent, size and name |
| `Iso9660.Lookup` | src/iso9660.c:108-147 | The path walk, against its specification, for every image; it ends. When names match is `IsoNames.MatchesIs` |
| `Iso9660.SearchDir` | src/iso9660.c:50-105 | The sector loop, at most 32 sectors |
| `Iso9660.SearchSector` | src/iso9660.c:60-103 | The record loop of one sector |
| `Iso9660.CleanName` | src/iso9660.c:66-75 | The cleaned name in its buffer |
| `Iso9660.SameName` | src/iso9660.c:79-91 | The comparison ignoring letter case. When names match is `IsoNames.MatchesIs` |

## Left out

- `PyInterp.Interpreter.ExecBlock`: the keyboard poll at each line and the interrupt it can cause are not modelled.
- `PyInterp.Interpreter.EvalNamed`: the `input()` built-in is not modelled; it gives None like an unknown function here, and the trees of the printed results hold no call of it.
- `PyBlockProof.ProgramRuns`: trees hold no stand-alone expression lines; texts built by + or str() and numbers are unbounded where the source has 128-byte strings and 32-bit integers, so overruns and overflow are outside the model.
- The script loader and the interactive prompt of AurionPython, and its module stubs.
- `MakeTool.Make.BuildTarget`: the C call stack is a depth parameter; echoing of commands, colours and recipes that re-enter MAKE are left out, and a command's result is an arbitrary function of the commands run before it.
- Finding the Makefile and choosing the goal from the command line.
- `FileSystem.AurionFs.LoadFromDisk`: the serial number drawn from the clock is a parameter; the `reserved` field behind the 64 bytes of an entry that are saved is left out; failing disk reads and writes are not modelled.
- `FsRuns.StepRefines`: removal, copy and move are not operations of the runs: they shift the entry table under the content slots.
- File attributes, aliases, environment and the other shell commands.
- `GlState.State.RotateBy`: sine, cosine, square root and the divisions of the projection matrices are computed outside; the matrix comes as a parameter.
- `GlState.State.SubmitVertex`: only the position is kept; normals, colours, texture coordinates, depth, clipping, rasterising and the attribute stack are left out, as is float rounding.
- `Paint.Canvas.Drag`: palette, buttons and the mapping from pixels to cells.
- `SnakeGame.Game.OnDraw`: drawing; the tick counter is a parameter.
- `Fat32.ReadFile`: reads from another offset than 0 (the only caller passes 0), sizes of 2^31 and more, failing sector reads; directory search and mounting.
- `Iso9660.Lookup`: a record that runs past its sector is read as zeros there, where the source reads on in memory; failing reads and reading the file itself.
- `HttpClient.Reply.ParseResponse`: the `chunked` flag, whose search runs past its header into the body; requests, name lookup and the receive loop. The status code is unbounded.
- Drivers, boot, windows, installer and network plumbing.
