# The hard core of graphql-core, modelled and proved in Dafny

This project models the parts of graphql-core whose code is a fast, stateful or
order-sensitive form of something simple, and proves that the two agree. It has
six parts, each in its own modules.

**Traversal of syntax trees** (`Visitor`, `VisitMachine`, `VisitorProperties`,
`ParallelVisitor`). A tree has nodes, arrays, absent children, the REMOVE marker
and values that are not nodes. `Visitor.Traverse` is the plain recursive
traversal: enter, visit the children, rebuild, leave. `VisitMachine.Visit` is the
loop of `visit` with its own stack, index, keys, edits, path and ancestors, and it
is proved to return, raise and call back exactly as the recursion does, for every
visitor and every tree. Nothing is excluded: the cases where the code departs from
what one expects are part of the recursion. An empty path raises `EmptyPath` (the
IndexError of `path_pop`) exactly when the root is skipped or replaced by a non-node
on enter (`EmptyPathIff`); REMOVE is stored verbatim in a slot that is not an array; BREAK returns the
latest edit of the innermost open level; a `leave` that answers SKIP drops the
edits below it. `ParallelVisitor` is proved to give each visitor the calls it would
get alone.

**Lexer, block strings, printing, value parsing, stripping** (`Lexing`,
`BlockStrings`, `BlockStringPrinting`, `Tokens`, `Lexer`, `Stripping`,
`CutOffEscapes`, `StringPrinting`, `Values`, `ValuePrinting`, `ValueRoundTrip`,
`Parser`). A text is
a sequence of code points. The lexical grammar is written as functions on
suffixes; the class `Lexer.Lexer` moves positions over one body and is proved
against them, as the class `Parser.Parser` is against the grammar of values.
Sections 2.1 and 2.9 of the GraphQL specification (October 2021) are the
reference.

**Searches on cyclic graphs** (`Graphs`, `InputObjects`, `NonNullCycles`,
`DefaultCycles`, `InputCoercion`, `CoercionRuns`, `Selections`, `CollectFields`,
`CollectFieldsProperties`, `UndeferredFields`, `UndeferredSubfields`,
`FieldCollector`, `SeparateOperations`, `TypeCollection`). Each search carries a ghost list of what it has finished, so
that its result is tied to a statement about paths: a cycle, reachability, a rank.

**Lexical distance** (`LexicalDistance`), **null propagation** (`NullPropagation`
for the meaning, `Executor` for the code), and the two small decision procedures
`SortValueNode` and `TypeChanges`. `Options` and `TypeRefs` are shared.

Clauses such as `Valid()`, `Searched` and `Logged` name the invariants the code
keeps; every class method states its whole new state.

### Where the code and its documentation differ

The model follows the code. Each difference below has a lemma with the condition
under which the promise holds, or an input on which it fails.

- `print_block_string` splits its value with `splitlines()`, which also breaks at
  form feeds, U+0085 and others, while the lexer breaks only at line feeds and
  carriage returns. A value can then lose its leading space or its indentation, so
  that stripping ignored characters can change a token and need not be idempotent.
  `BlockStringPrinting.ComesBack` is the exact guard, and `BlockRoundTrip`,
  `StrippingKeepsTokens`, `StrippingTwice`, `ValuesComeBack`, `SourcesComeBack` and
  `StrippingKeepsValue` are stated with it, both ways. It holds of every value
  whose only line boundary is the line feed.
- `LexicalDistance` documents the least number of edits. It computes the optimal
  string alignment distance: the least cost of an alignment whose swaps are not
  edited again (`DistanceIsLeastCost`), which the least number of edits never
  exceeds (`DistanceIsEdits`). The documented number is answered for all texts if
  and only if the threshold is at most one (`CountsEditsIff`).
- Its rows are sized from the input as given, not in lower case, so an input that
  grows in lower case can raise an IndexError; this is an outcome of `Measure`.
- `read_16_bit_hex_code` and `read_escaped_character` index past the end of the
  body; this is the outcome `IndexError`. Lexing a source ends so, instead of with a
  syntax error, exactly if its end cuts off an escape of a string that is open
  (`IndexErrorIff`, `CutOffSources`).
- A default value that holds a key whose value is `Undefined` counts as given for
  the cycle validator and as missing for coercion, so a default can ask for itself
  without end although nothing is reported (`UndefinedKeyRunsForever`). Exactly, the
  validator has to be run on the schema with such keys dropped: then its silence
  means that coercion ends, and no default on a reported path ever coerces
  (`SilentOnDropped`, `ReportMeansNoCoercion`).
- A spread without `@defer`, met inside something deferred, hides a later spread of
  the same fragment that is not deferred, whose fields then arrive with the deferred
  part (`DeferTakesField`). The fields collected are still exactly the reachable
  ones. Exactly, what is spread outside of anything deferred keeps the incoming usage
  if and only if, along a plain search that leaves out what is deferred, nothing
  deferred leads to such a fragment before the search has entered it
  (`UndeferredStayIff`, `FieldsStayIff`). For several nodes that share what has been
  visited, each with its own usage, the same holds of the usage of the first node that
  leads to the fragment (`SubfieldsStayIff`).
- The input-type check calls the change from a type to a list of it unsafe although
  coercion wraps single values. This is because scalars may take lists: over all
  meanings of the named types, wrapping included, the check is exact
  (`InputCheckIsExact`). Over those in which no named type takes lists, the check
  with one more rule is (`CheckWithoutListsIsExact`, `ListsOfATypeAcceptIt`).

## Model

| member | source | states |
|---|---|---|
| VisitMachine.Visit | src/graphql/language/visitor.py:161-298 | the loop with its explicit stack returns, raises and leaves the visitor's state exactly as the recursive traversal `Traverse` does, for every tree, visitor and table of child keys on which the recursion is finite, and it terminates there |
| VisitMachine.EnterItem | src/graphql/language/visitor.py:235-290 | one turn of the loop at a child, from taking it (or skipping an absent one) to the push, keeps the correspondence between machine and open levels of the recursion, one step further, or ends as the recursion ends |
| VisitMachine.LeaveItem | src/graphql/language/visitor.py:208-281 | one turn at the end of a level (edits applied, frame popped, leave called, its answer recorded in the outer edits) keeps the same correspondence |
| VisitMachine.NextChild | src/graphql/language/visitor.py:235-244 | the key and node the loop reads are the next key and child of the innermost open level, or none and the root at the start |
| Visitor.ApplyEdits | src/graphql/language/visitor.py:214-229 | applying the recorded edits in order, with the offset that removals from an array cause, gives the node rebuilt from what became of each child |
| Visitor.SpliceMeans | src/graphql/language/visitor.py:215-225 | editing an array in place with a running offset succeeds and gives the edited members followed by the untouched rest, with removed members gone |
| Visitor.UpdateMeans | src/graphql/language/visitor.py:226-229 | the last recorded edit of every child slot wins, REMOVE included verbatim, and the other attributes stay |
| Visitor.RebuildUnedited | src/graphql/language/visitor.py:208-229 | a node none of whose children was edited is rebuilt as itself |
| VisitorProperties.ItemIsFinite | src/graphql/language/visitor.py:191-298 | a visitor that puts no node in place of a node on enter makes the traversal finite on every tree, by the height along child keys |
| VisitorProperties.ReadOnlyReturnsRoot | src/graphql/language/visitor.py:161-298 | a visitor that only reads gets the root back unchanged, or the error of the empty path if it skips the root |
| VisitorProperties.EmptyPathIff | src/graphql/language/visitor.py:260-272 | for every visitor whose traversal is finite, the index error of the empty path is raised if and only if the root is a node and its enter call answers SKIP or something that is not a node |
| VisitorProperties.CallsAreTrue | src/graphql/language/visitor.py:208-290 | for a reading visitor, following the path from the root through exactly the ancestors leads to the very node that each enter and leave call gets |
| VisitorProperties.CallsAreLinked | src/graphql/language/visitor.py:191-298 | for every visitor and tree, each call gets a path through the ancestors it is told, each of which is the child of the one before under the path's key, or the node that an enter call at that very place put there; enter gets the child itself, leave a node of the kind descended into; every answer is the visitor's own |
| VisitorProperties.PlacesAreTrue | src/graphql/language/visitor.py:191-298 | unless nodes are put in place of nodes on enter, and whatever else is skipped, removed or replaced, on trees of any shape, the ancestors are exactly those along the path from the root, and enter gets what is there |
| ParallelVisitor.ParallelVisitor.constructor | src/graphql/language/visitor.py:309-313 | all visitors start with nothing skipped |
| ParallelVisitor.ParallelVisitor.Enter | src/graphql/language/visitor.py:332-343 | the enter closure changes states and skipping marks as the combined visitor does and answers the same |
| ParallelVisitor.ParallelVisitor.Leave | src/graphql/language/visitor.py:345-361 | the leave closure changes states and skipping marks as the combined visitor does and answers the same |
| ParallelVisitor.EachAsIfAlone | src/graphql/language/visitor.py:301-361 | with visitors that do not edit, each visitor ends in the state it would reach alone, and is marked broken exactly when it would stop alone, whatever the others skip or break |
| ParallelVisitor.SameCallsAsAlone | src/graphql/language/visitor.py:332-361 | each visitor gets the same sequence of enter and leave calls, with the same nodes and places, as when it runs alone |
| Lexer.Lexer.constructor | src/graphql/language/lexer.py:35-39 | the lexer starts at the start-of-file token on line 1 |
| Lexer.Lexer.Advance | src/graphql/language/lexer.py:41-45 | the next token depends only on the body and the current token, whatever was looked ahead before; it becomes the current one, the former becomes the last, and EOF repeats; the chain of tokens only grows and each lies on its line and column (`Valid`) |
| Lexer.Lexer.Lookahead | src/graphql/language/lexer.py:47-65 | looking ahead returns what advancing would, keeps the current token and only adds to the chain, skipping comments |
| Lexer.NextToken | src/graphql/language/lexer.py:47-65 | the next token is never a comment, lies inside the body, and is empty only at the end |
| Lexer.TokenFrom | src/graphql/language/lexer.py:101-188 | the token read from a position starts there or later, lies inside the body, and is empty only at the end |
| Lexer.Lexer.ReadNextToken | src/graphql/language/lexer.py:101-188 | the loop over ignored characters returns the token the lexical grammar gives, and its counters are the line and line start at the token's end |
| Lexer.Lexer.ReadTokenAt | src/graphql/language/lexer.py:132-186 | the dispatch on the first character reads the lexeme of the grammar, errors included, and keeps the counters right |
| Lexer.Lexer.ReadNameToken | src/graphql/language/lexer.py:473-485 | a name token with the longest run of name characters |
| Lexer.Lexer.ReadCommentToken | src/graphql/language/lexer.py:190-212 | a comment token up to the end of its line |
| Lexer.Lexer.ReadDigitsFrom | src/graphql/language/lexer.py:273-288 | the end of a run of at least one digit, or the error |
| Lexer.Lexer.ReadWholePart | src/graphql/language/lexer.py:227-243 | the sign and whole part end where the grammar says, or fail as it does |
| Lexer.Lexer.ReadFractionPart | src/graphql/language/lexer.py:245-251 | a fraction is read exactly when a dot is there |
| Lexer.Lexer.ReadExponentPart | src/graphql/language/lexer.py:253-261 | an exponent is read exactly when its letter is there, with its optional sign |
| Lexer.Lexer.ReadNumberToken | src/graphql/language/lexer.py:214-271 | an integer or float token with exactly the grammar's extent, or its errors (leading zeros, missing digits, a name or dot that follows) |
| Lexer.Lexer.ReadStringToken | src/graphql/language/lexer.py:290-342 | the string token with its escapes decoded, or the same error as the grammar |
| Lexer.Lexer.ReadEscapedUnicodeVariableWidth | src/graphql/language/lexer.py:344-370 | the code point and size of a braced escape, or the error |
| Lexer.Lexer.ReadEscapedUnicodeFixedWidth | src/graphql/language/lexer.py:372-396 | the code point and size of a four-digit escape or of a surrogate pair of them, or the error |
| Lexer.Lexer.ReadEscapedCharacter | src/graphql/language/lexer.py:398-408 | the character a single-letter escape stands for, or the error |
| Lexer.Lexer.Read16BitHexCode | src/graphql/language/lexer.py:546-562 | the value of four hexadecimal digits, negative if one is none, and IndexError when the body ends first |
| Lexer.Lexer.ReadEscapeSequence | src/graphql/language/lexer.py:307-318 | each escape sequence is decoded, or refused, as in the grammar |
| CutOffEscapes.EscapeIsCutOff | src/graphql/language/lexer.py:372-408 | reading an escape runs over the end of the text if and only if the text ends right behind its backslash, within its four digits, or, behind a leading surrogate, within the four of a second one |
| CutOffEscapes.StringBodyIsCutOff | src/graphql/language/lexer.py:299-342 | reading a string runs over the end exactly if, behind whole characters and escapes, it ends in such an escape |
| CutOffEscapes.IndexErrorIff | src/graphql/language/lexer.py:101-188 | lexing a source ends in the index error if and only if, behind whole tokens and ignored characters, a string starts that the end cuts off so |
| CutOffEscapes.CutOffSources | src/graphql/language/lexer.py:372-408 | a quote followed by a backslash, or by a backslash, u and two digits, ends in the index error |
| Lexer.Lexer.ReadBlockStringToken | src/graphql/language/lexer.py:410-471 | the block string token whose value is the dedented raw lines, with lines and columns kept right over every line inside it |
| Lexer.LocatedOn | src/graphql/language/lexer.py:93-99 | characters that are no line terminators leave line and line start as they are |
| Lexer.LocatedBreak | src/graphql/language/lexer.py:118-130 | a line terminator, with a carriage return and line feed counted once, adds one line and starts it right behind |
| Lexer.TokenNoBreak | src/graphql/language/lexer.py:132-186 | no token except a block string spans a line terminator |
| Tokens.TokenIsLocal | src/graphql/language/lexer.py:101-188 | cutting the source behind a token and continuing with anything gives the same token, provided it is a punctuator or a separating character follows |
| Tokens.NumberAgree | src/graphql/language/lexer.py:214-271 | a number is determined by its characters and by what follows not being a digit, dot or name start |
| Tokens.NameAgree | src/graphql/language/lexer.py:473-485 | a name is determined by its characters and by what follows not being a name character |
| Tokens.StringAgree | src/graphql/language/lexer.py:290-342 | a string is determined by its characters, an empty one also by no third quote following |
| BlockStrings.DedentBlockStringLines | src/graphql/language/block_string.py:18-57 | the loop computes the lines between the first and last non-blank one with the common indentation cut from all but the first |
| BlockStrings.LeadingWhiteSpaceOf | src/graphql/language/block_string.py:60-66 | the loop counts the leading spaces and tabs |
| BlockStrings.DedentCanonicalLines | src/graphql/language/block_string.py:18-57 | dedenting gives no lines, or first and last lines non-blank with a single line or some indented by nothing |
| BlockStrings.DedentCanonical | src/graphql/language/block_string.py:18-57 | joining dedented lines gives a canonical block value |
| BlockStrings.JoinLines | src/graphql/language/block_string.py:18-57 | joining the lines of a text gives it back |
| BlockStrings.LinesJoin | src/graphql/language/block_string.py:18-57 | splitting joined lines gives them back |
| BlockStrings.IsPrintableAsBlockString | src/graphql/language/block_string.py:69-106 | the single pass answers true exactly for canonical values without a refused control character or carriage return |
| BlockStringPrinting.ReadPrinted | src/graphql/language/block_string.py:109-161 | the lexer reads what is printed, indented by any spaces, up to exactly its closing quotes, with quotes and backslashes inside or at the end undone, and finds the value's lines with the printed line breaks around them |
| BlockStringPrinting.DedentPrinted | src/graphql/language/block_string.py:18-57 | dedenting the lines of a printed canonical value undoes the padding and the added first and last lines, except for an indentation common to all lines below a leading break, or to all but the first without one |
| BlockStringPrinting.PrintIsReread | src/graphql/language/block_string.py:109-161 | reading a printed block value, minimized or not, however indented and whatever follows, gives `Reread` of it |
| BlockStringPrinting.RereadIff | src/graphql/language/block_string.py:109-161 | what is read back is the value itself if and only if a flush line protects its indentation where the printer put the value |
| BlockStringPrinting.BlockRoundTrip | src/graphql/language/block_string.py:109-161 | for every canonical value in either mode, the lexer gives the value back if and only if `ComesBack` holds |
| BlockStringPrinting.LineFeedsComeBack | src/graphql/language/block_string.py:124 | every canonical value whose only line boundary is the line feed comes back |
| BlockStringPrinting.NextLineLosesSpace | src/graphql/language/block_string.py:124 | a canonical value with U+0085 inside and a leading space does not come back in either mode |
| BlockStringPrinting.NextLineLosesIndent | src/graphql/language/block_string.py:124 | a canonical value with an indented second line and U+0085 does not come back when minimized |
| Stripping.StripIgnoredCharacters | src/graphql/utilities/strip_ignored_characters.py:15-100 | the loop over the lexer returns the rendering of the source's tokens, or the first lexer error |
| Stripping.BlockValueIsPrintable | src/graphql/language/lexer.py:410-471 | the value of every block string that lexes is canonical and free of what the printer cannot print |
| Stripping.TokensAreSound | src/graphql/language/lexer.py:101-188 | every token that lexes is read back from its own characters, or is a canonical block string |
| Stripping.RenderedTokens | src/graphql/utilities/strip_ignored_characters.py:70-100 | rendering any sound tokens, with spaces only where two non-punctuators or a spread meet, lexes to these tokens with each block string reread |
| Stripping.StrippedTokens | src/graphql/utilities/strip_ignored_characters.py:15-100 | the stripped source lexes to the tokens of the source with each block string reread |
| Stripping.AllReprintedMeaning | src/graphql/utilities/strip_ignored_characters.py:84-94 | rereading keeps every kind and value if and only if all block strings come back |
| Stripping.StrippingKeepsTokens | src/graphql/utilities/strip_ignored_characters.py:15-100 | every source that lexes strips to one that lexes to the same kinds and values if and only if all its block strings come back |
| Stripping.StrippingKeepsLineFeedTokens | src/graphql/utilities/strip_ignored_characters.py:15-100 | if block strings hold no line boundary but the line feed, stripping keeps all kinds and values |
| Stripping.PrintIsInjective | src/graphql/language/block_string.py:109-161 | two canonical values never print alike |
| Stripping.StrippingTwice | src/graphql/utilities/strip_ignored_characters.py:15-100 | stripping is idempotent on a source that lexes if and only if all its block strings come back |
| StringPrinting.EscapeIsRead | src/graphql/language/print_string.py:17-85 | each escape of the table is read back as its character with its exact size |
| StringPrinting.TranslateIsRead | src/graphql/language/print_string.py:12-14 | the reader undoes the translation of any text of Unicode scalar values |
| StringPrinting.PrintStringIsRead | src/graphql/language/print_string.py:6-14 | a printed string, followed by anything separating, lexes as one string token with the text as its value |
| Values.ParsesValue | src/graphql/language/parser.py:637-717 | the tokens of a grammatical value, followed by anything, parse to it and leave what follows |
| Values.ParsedValue | src/graphql/language/parser.py:637-717 | whatever parses is grammatical and was spelled by exactly the tokens consumed |
| Values.ParsesExactly | src/graphql/language/parser.py:156-209 | a whole token sequence parses to a value if and only if the value is grammatical and these are its tokens |
| ValuePrinting.LeafReads | src/graphql/language/printer.py:163-187 | every printed leaf value, also indented, is read as its tokens |
| ValuePrinting.ReadsBlock | src/graphql/language/printer.py:172-175 | a printed block string, indented again by enclosing values, is read as one token with the reread value |
| ValuePrinting.IndentedTwice | src/graphql/language/printer.py:473-479 | nested indentation adds up |
| ValuePrinting.ReadsValue | src/graphql/language/printer.py:163-207 | every printed value, with lists and objects wrapped or not and indented by any spaces, is read as its tokens |
| ValueRoundTrip.PrintedValueScans | src/graphql/language/printer.py:163-207 | a printed value scans to exactly the tokens of the value with block strings reread |
| ValueRoundTrip.ValuesComeBack | src/graphql/language/printer.py:163-207 | printing and parsing any well-formed value gives it back with block strings reread, and so gives it back if and only if its block strings come back |
| ValueRoundTrip.LineFeedBlocksComeBack | src/graphql/language/printer.py:172-175 | block strings without other line boundaries than the line feed come back inside any value |
| ValueRoundTrip.ParsedIsPrintable | src/graphql/language/parser.py:156-209 | every value the parser builds is grammatical, printable and spelled by the source's tokens |
| ValueRoundTrip.SourcesComeBack | src/graphql/language/printer.py:163-207 | printing and parsing again the value of any source gives the same value if and only if its block strings come back |
| ValueRoundTrip.StrippingKeepsValue | src/graphql/utilities/strip_ignored_characters.py:15-100 | the stripped source of a value parses to the same value if and only if its block strings come back |
| Parser.ParseSource | src/graphql/language/parser.py:156-209 | parsing a source as a value, constant or not, succeeds exactly when the grammar accepts its tokens and their number is within the limit, and gives the grammar's value |
| Parser.Parser.constructor | src/graphql/language/parser.py:156-182 | a parser starts with a fresh lexer at the start of the body |
| Parser.Parser.AdvanceLexer | src/graphql/language/parser.py:1400-1412 | the next token is taken, counted, and refused exactly when the lexer fails or the limit is exceeded |
| Parser.Parser.ExpectToken | src/graphql/language/parser.py:1258-1273 | succeeds exactly on a token of the kind, which it returns and consumes |
| Parser.Parser.ExpectOptionalToken | src/graphql/language/parser.py:1275-1286 | consumes a token of the kind if it is there and else changes nothing |
| Parser.Parser.ParseName | src/graphql/language/parser.py:313-317 | consumes exactly one name and returns it |
| Parser.Parser.ParseVariable | src/graphql/language/parser.py:471-475 | consumes exactly a dollar and a name |
| Parser.Parser.ParseVariableValue | src/graphql/language/parser.py:705-717 | agrees with the grammar on variables, refusing them in constants |
| Parser.Parser.ParseTokenValue | src/graphql/language/parser.py:680-703 | a value of one token consumes exactly that token |
| Parser.Parser.ParseValueLiteral | src/graphql/language/parser.py:637-641 | agrees with the grammar on every token sequence: same value, same rest, fails when it fails |
| Parser.Parser.ParseListItems | src/graphql/language/parser.py:1324-1340 | the loop agrees with the grammar's items up to the closing bracket |
| Parser.Parser.ParseList | src/graphql/language/parser.py:653-660 | agrees with the grammar on lists |
| Parser.Parser.ParseObjectField | src/graphql/language/parser.py:662-669 | agrees with the grammar on one field |
| Parser.Parser.ParseObjectFields | src/graphql/language/parser.py:1324-1340 | the loop agrees with the grammar's fields up to the closing brace |
| Parser.Parser.ParseObject | src/graphql/language/parser.py:671-678 | agrees with the grammar on objects |
| NonNullCycles.ValidateNonNullCycles | src/graphql/type/validate.py:702-756 | run over all input objects, an error is reported if and only if some non-null field path is a cycle; every reported path is a closed walk of non-null fields from the named type to itself; every cycle takes the closing step of a reported one |
| NonNullCycles.Validator.Visit | src/graphql/type/validate.py:715-756 | visiting a type finishes it, restores the path and the index map, and only adds to what is visited, finished and reported |
| NonNullCycles.Validator.VisitFields | src/graphql/type/validate.py:727-754 | after the loop every non-null field leads to a finished type or closes a reported cycle |
| NonNullCycles.Validator.VisitField | src/graphql/type/validate.py:728-754 | the same for one field, with the push and pop of the path undone |
| NonNullCycles.EveryCycleIsReported | src/graphql/type/validate.py:702-756 | once all types are finished every cycle contains the closing step of a reported error |
| NonNullCycles.ReportsIffCyclic | src/graphql/type/validate.py:702-756 | once all types are finished nothing is reported if and only if there is no cycle |
| DefaultCycles.ValidateDefaultCycles | src/graphql/type/validate.py:759-895 | run over all input objects, nothing is reported if and only if there is a rank on defaulted fields that decreases along every default asked for, and if and only if no cycle of defaults exists; reported paths are cycles; every cycle takes a reported step |
| DefaultCycles.Validator.Check | src/graphql/type/validate.py:773-780 | checking a type settles every default that an empty object of it asks for |
| DefaultCycles.Validator.DetectValueDefaultValueCycle | src/graphql/type/validate.py:782-845 | searching a default value, external or literal, settles every default it asks for and restores the path |
| DefaultCycles.Validator.DetectItems | src/graphql/type/validate.py:787-790 | the loop over list items settles what each of them asks for |
| DefaultCycles.Validator.DetectFields | src/graphql/type/validate.py:794-812 | the loop over the fields settles what given and missing fields ask for |
| DefaultCycles.Validator.DetectField | src/graphql/type/validate.py:798-812 | one field: a given value is searched, a missing one asks for its default |
| DefaultCycles.Validator.DetectFieldDefaultValueCycle | src/graphql/type/validate.py:847-895 | asking for a default reports the cycle it closes or finishes it, and undoes path and index map |
| DefaultCycles.EveryCycleIsReported | src/graphql/type/validate.py:847-895 | after the search every cycle takes a step that a report closes |
| DefaultCycles.FinishOrderIsRank | src/graphql/type/validate.py:759-895 | without reports the order of finishing is a rank that decreases along every default asked for |
| DefaultCycles.RankedHasNoCycle | src/graphql/type/validate.py:759-895 | with a rank there is no cycle |
| DefaultCycles.ReportsIffUnranked | src/graphql/type/validate.py:759-895 | reports, rank and cycles exclude or imply each other, both ways |
| InputCoercion.CoerceDefault | src/graphql/utilities/coerce_input_value.py:255-297 | given a rank, the mutual recursion of value and default coercion is total, and a coerced default is never undefined: it is a value or an exception |
| InputCoercion.SameDefault | src/graphql/utilities/coerce_input_value.py:255-297 | the result does not depend on the rank that justifies the recursion |
| InputCoercion.SameValue | src/graphql/utilities/coerce_input_value.py:38-252 | the same for any value, type and bound |
| InputCoercion.ValueConforms | src/graphql/utilities/coerce_input_value.py:38-252 | a successful coercion gives a value of the type: null only where allowed and only for null or undefined, lists of conforming items, objects with every required field and at most one field of a oneOf, defaults included |
| InputCoercion.DefaultConforms | src/graphql/utilities/coerce_input_value.py:255-297 | a coerced default conforms to its field's type |
| InputCoercion.SilenceRanks | src/graphql/type/validate.py:802-812 | without undefined keys in defaults, a rank for the validator is a rank for coercion and the other way round |
| InputCoercion.CoercionRanks | src/graphql/type/validate.py:802-812 | exactly: a rank for coercion is a rank for the validator on the schema with the keys whose value is undefined dropped from every default, at every depth |
| InputCoercion.SilentOnDropped | src/graphql/type/validate.py:773-895 | if, for the schema with such keys dropped, no report is equivalent to a rank, as the validator ensures, it is equivalent to a rank for coercion on the schema itself |
| InputCoercion.RankedIsSilent | src/graphql/type/validate.py:794-812 | a rank for coercion is one for the validator as it is, so it never reports what can be coerced |
| InputCoercion.EveryValueIsBelow | src/graphql/utilities/coerce_input_value.py:38-113 | with a rank, every value of every type has a bound, so coercion is defined on all inputs |
| InputCoercion.UndefinedKeyEscapes | src/graphql/type/validate.py:802-807 | a default with its own key undefined has a rank for the validator and none for coercion |
| CoercionRuns.UndefinedKeyRunsForever | src/graphql/utilities/coerce_input_value.py:82-95 | at that input coercion of the default, and of an empty object, goes on at every depth of nested defaults |
| CoercionRuns.RankedRunEnds | src/graphql/utilities/coerce_input_value.py:38-252 | with a rank the run of any value ends within a depth that the rank gives, with what coercion gives |
| CoercionRuns.RankedDefaultEnds | src/graphql/utilities/coerce_input_value.py:255-297 | the same for a default |
| CoercionRuns.CoercedIsRanked | src/graphql/utilities/coerce_input_value.py:255-297 | if every default of input object type can be coerced within some depth, the least depths are a rank |
| CoercionRuns.ReportMeansNoCoercion | src/graphql/type/validate.py:773-895 | of what the validator ensures on the schema with undefined keys dropped: no report means that the run of every default ends, and no field on a reported path ever coerces, at any depth |
| CoercionRuns.CycleNeverCoerces | src/graphql/utilities/coerce_input_value.py:255-297 | no default on any cycle, reported or not, ever coerces |
| InputCoercion.Coercer.Coerce | src/graphql/utilities/coerce_input_value.py:38-252 | the code with its memo of coerced defaults returns what the specification gives, whatever was coerced before |
| InputCoercion.Coercer.CoerceListItems | src/graphql/utilities/coerce_input_value.py:60-67 | the loop over items gives the coerced items or stops at the first invalid one |
| InputCoercion.Coercer.CoerceObjectFields | src/graphql/utilities/coerce_input_value.py:82-95 | the loop over fields gives the coerced entries in field order, with defaults for missing fields |
| InputCoercion.Coercer.CoerceObjectField | src/graphql/utilities/coerce_input_value.py:83-95 | one field: required and missing is invalid, missing with a default takes it, given is coerced |
| InputCoercion.Coercer.CoerceDefaultValue | src/graphql/utilities/coerce_input_value.py:269-297 | the memo holds exactly the coerced default |
| FieldCollector.CollectFieldsOf | src/graphql/execution/collect_fields.py:98-136 | the groups are the depth-first collected sequence grouped by response key in first-occurrence order, with the same new defer usages and forbidden directives |
| FieldCollector.CollectSubfields | src/graphql/execution/collect_fields.py:139-187 | the same over the selections of all nodes of a field, with one set of visited fragments shared |
| FieldCollector.Collector.CollectFieldsImpl | src/graphql/execution/collect_fields.py:190-311 | the loop adds to the groups, usages, visited fragments and forbidden directives exactly what the specification collects |
| FieldCollector.Collector.CollectSelection | src/graphql/execution/collect_fields.py:212-311 | the same for one field, inline fragment or spread |
| FieldCollector.AddGroups | src/graphql/execution/collect_fields.py:217-220 | adding a field under its response key to a grouping of a sequence gives the grouping of the longer one |
| FieldCollector.AddAllGroups | src/graphql/execution/collect_fields.py:217-220 | the same for a whole sequence |
| CollectFieldsProperties.CollectsExactly | src/graphql/execution/collect_fields.py:190-311 | the nodes collected are exactly the field nodes reachable through included, type-matching inline fragments and spreads, for cyclic fragments and any mix of deferred and other spreads |
| CollectFieldsProperties.CollectedIsReached | src/graphql/execution/collect_fields.py:190-311 | whatever is collected, from any visited state, is reachable |
| CollectFieldsProperties.CollectCloses | src/graphql/execution/collect_fields.py:253-311 | what is collected contains the fields of the selections and of all newly visited fragments |
| CollectFieldsProperties.UsagesAreListed | src/graphql/execution/collect_fields.py:227-311 | new defer usages are listed parent before child, and every collected field's usage is the incoming one or listed |
| CollectFieldsProperties.ExpansionsAreCounted | src/graphql/execution/collect_fields.py:274-311 | each expansion of a fragment moves its visit state up, and a state that moved means an expansion |
| CollectFieldsProperties.ExpandsAtMostTwice | src/graphql/execution/collect_fields.py:253-311 | every fragment body is expanded at most twice, and at all exactly when it ends up visited |
| CollectFieldsProperties.UndeferredExpandsOnce | src/graphql/execution/collect_fields.py:253-311 | without defer a body is expanded at most once, no usage is made and every field keeps the incoming usage |
| UndeferredFields.EnteredIsHere | src/graphql/execution/collect_fields.py:205-311 | a plain search that leaves out what is deferred enters exactly the fragments spread without defer outside of anything deferred |
| UndeferredFields.KeptOrLost | src/graphql/execution/collect_fields.py:205-311 | collecting under a usage keeps up with that search, expanding under the usage just what it enters, as long as nothing deferred takes a fragment, and from then on has lost one |
| UndeferredFields.UndeferredStayIff | src/graphql/execution/collect_fields.py:274-291 | all those fragments are expanded under the incoming usage if and only if, in the order of the search, nothing deferred leads to one of them before it is entered |
| UndeferredFields.FieldsUnderAre | src/graphql/execution/collect_fields.py:205-311 | the fields collected under the incoming usage are exactly those standing, not deferred, in the selections and in the fragments expanded under it |
| UndeferredFields.ClearFieldsStay | src/graphql/execution/collect_fields.py:274-291 | under that condition every field reached without passing through anything deferred is collected under the incoming usage |
| UndeferredFields.FieldsStayIff | src/graphql/execution/collect_fields.py:274-291 | and only under it, where each of those fragments has a field that stands nowhere else |
| UndeferredFields.DeferTakesField | src/graphql/execution/collect_fields.py:274-291 | a document of two fragments whose one field is collected under the defer alone although it is also reached without it |
| UndeferredSubfields.PartsMakeUp | src/graphql/execution/collect_fields.py:139-187 | what collecting subfields gives is made up of what each node adds, in order, with the fragments visited handed on |
| UndeferredSubfields.SubfieldsStayIff | src/graphql/execution/collect_fields.py:139-187 | for any nodes with any usages, each fragment spread without defer is expanded under the usage of the first node that leads to it so, if and only if nothing deferred in any of the nodes takes one of them before the search gets to it |
| UndeferredSubfields.SubfieldsStay | src/graphql/execution/collect_fields.py:139-187 | then every field that a node reaches without passing through anything deferred is collected under the usage of that node or of one before it |
| CollectFields.VisitUsesOne | src/graphql/execution/collect_fields.py:274-291 | each expansion of a fragment that is not skipped uses up one of finitely many visit states, so collection terminates on every fragment graph |
| SeparateOperations.Separate | src/graphql/utilities/separate_operations.py:23-68 | every operation's name has a document; it is the one of the last operation of that name, made of that operation and exactly the fragments reachable from it, in document order |
| SeparateOperations.CollectTransitiveDependencies | src/graphql/utilities/separate_operations.py:71-85 | the search adds the name and only names it leads to, and what it adds is closed under dependencies, on cyclic graphs too |
| SeparateOperations.TransitiveDependencies | src/graphql/utilities/separate_operations.py:46-49 | the union over an operation's own spreads is exactly what they lead to, and is closed |
| SeparateOperations.CollectsSame | src/graphql/execution/collect_fields.py:190-311 | two contexts that agree on a closed set of fragment names collect the same from selections that spread only these |
| SeparateOperations.SubfieldsSame | src/graphql/execution/collect_fields.py:139-187 | the same for subfields, whose selections again spread only these |
| SeparateOperations.KeptFragments | src/graphql/utilities/separate_operations.py:54-66 | the fragments of a separated document are those of the document with a kept name |
| SeparateOperations.SeparationKeepsMeaning | src/graphql/utilities/separate_operations.py:23-68 | collecting fields, and subfields at every depth, with the separated document's fragments equals collecting with all fragments |
| TypeCollection.CollectTypes | src/graphql/type/schema.py:173-200 | the types collected are, without repetition, exactly those reachable from the given types, root types, directive arguments and introspection root; the set is closed under references; distinct given types keep their order |
| TypeCollection.TypeSet.CollectReferencedTypes | src/graphql/type/schema.py:413-436 | the recursive insertion adds exactly what is reachable from the type through types not collected before |
| TypeCollection.TypeSet.CollectReferencesOf | src/graphql/type/schema.py:422-436 | the same for the members, interfaces, fields and arguments of one type, by its kind |
| TypeCollection.TypeSet.CollectAll | src/graphql/type/schema.py:424-428 | the same for a list of types |
| TypeCollection.TypeSet.CollectFields | src/graphql/type/schema.py:430-436 | the same for fields with their arguments |
| TypeCollection.TypeSet.WithInitialTypes | src/graphql/type/schema.py:409-411 | the set starts as the given types without repetition |
| TypeCollection.TypeSet.Delete | src/graphql/type/schema.py:182 | removing a type leaves the others in order |
| TypeCollection.OneMoreUserType | src/graphql/type/schema.py:178-183 | removing and collecting again one pre-marked type keeps the claim that the types treated so far are collected with all they reach |
| TypeCollection.InOrderNext | src/graphql/type/schema.py:178-183 | and moves that type behind those treated before, in the given order |
| TypeCollection.AllCollected | src/graphql/type/schema.py:188-200 | collecting the remaining roots completes the set to everything reachable |
| LexicalDistance.LexicalDistance.constructor | src/graphql/pyutils/suggestion_list.py:54-60 | three separate rows of the size of the input |
| LexicalDistance.LexicalDistance.Measure | src/graphql/pyutils/suggestion_list.py:62-114 | zero for equal texts, one for texts equal in lower case, else the index error exactly when the lengths are close enough and the rows too short for the shorter lowered text, and otherwise the optimal string alignment distance of the lowered texts when within the threshold and none when not; stale rows, swap, cut-off and early exit leave no trace |
| LexicalDistance.LexicalDistance.FillRow | src/graphql/pyutils/suggestion_list.py:85-106 | the reused row holds the matrix row, and the smallest cell is a lower bound of it |
| LexicalDistance.DistanceSymmetric | src/graphql/pyutils/suggestion_list.py:74-76 | the distance is symmetric, so swapping the arguments is harmless |
| LexicalDistance.OsaSymmetric | src/graphql/pyutils/suggestion_list.py:74-76 | the recurrence is symmetric on all prefixes |
| LexicalDistance.LengthCutOff | src/graphql/pyutils/suggestion_list.py:78-79 | the distance is at least the difference of the lengths |
| LexicalDistance.EarlyExit | src/graphql/pyutils/suggestion_list.py:108-111 | if all cells of a row exceed the threshold so do all later ones, transpositions from two rows up included |
| LexicalDistance.NoCheaperScript | src/graphql/pyutils/suggestion_list.py:39-47 | no edit script for two prefixes costs less than the recurrence |
| LexicalDistance.CheapestScript | src/graphql/pyutils/suggestion_list.py:39-47 | some edit script costs exactly that |
| LexicalDistance.DistanceIsLeastCost | src/graphql/pyutils/suggestion_list.py:39-47 | the distance is the least cost of keeping, inserting, deleting, substituting and swapping that turns one text into the other |
| LexicalDistance.DistanceIsEdits | src/graphql/pyutils/suggestion_list.py:42-44 | a text becomes another by at most as many insertions, deletions, substitutions and swaps, each anywhere in what the ones before made, as the distance says |
| LexicalDistance.OneEditIsExact | src/graphql/pyutils/suggestion_list.py:42-44 | no edit suffices exactly at distance zero, and one exactly at distance at most one |
| LexicalDistance.CountsEditsIff | src/graphql/pyutils/suggestion_list.py:42-44 | for all texts the answer is the minimum number of edits, or none because that exceeds the threshold, if and only if the threshold is at most one |
| LexicalDistance.NotTheMinimumNumberOfEdits | src/graphql/pyutils/suggestion_list.py:42-44 | "ca" becomes "abc" by two edits, yet the distance is three |
| Executor.CollectedErrors.constructor | src/graphql/execution/executor.py:175-177 | no error and no nulled position at first |
| Executor.CollectedErrors.Add | src/graphql/execution/executor.py:184-195 | an error below or at a position already nulled is dropped, any other is recorded with its position |
| Executor.CollectedErrors.HasNulledPosition | src/graphql/execution/executor.py:197-205 | walking up the linked path finds whether it or an ancestor is recorded |
| Executor.Executor.HandleFieldError | src/graphql/execution/executor.py:809-826 | the error is located, and recorded with a null returned where null is allowed or propagation is off, raised otherwise |
| Executor.Executor.CompleteValueOf | src/graphql/execution/executor.py:828-930 | completing a value returns or raises, and records, exactly what the specification of completion says, so that nothing it records is dropped |
| Executor.Executor.CompletePositionOf | src/graphql/execution/executor.py:1524-1562 | the same with the error handling of one list item or field around it |
| Executor.Executor.CompleteIterableValue | src/graphql/execution/executor.py:1404-1506 | the same for the loop over items, which stops at the first item that raises |
| Executor.Executor.ExecuteField | src/graphql/execution/executor.py:684-777 | the same for a field |
| Executor.Executor.ExecuteFields | src/graphql/execution/executor.py:621-682 | the same for the loop over fields, which leaves out unknown ones and stops at the first that raises |
| Executor.Executor.ExecuteOperation | src/graphql/execution/executor.py:434-525 | the response's data and error list, and the recorded positions, are those of the specification; data is null when the root raises |
| NullPropagation.ResponseKeepsItsPromises | src/graphql/execution/executor.py:434-525 | with propagation, the data has no null at a non-null position; it is null as a whole exactly when an error is recorded at the root, which is then the last one; each recorded position or an ancestor is null in the data; each null in the data is the resolver's own or recorded; no recorded position is at or above a later one; each error has a path, at or below its recorded position, along which the data is null |
| NullPropagation.UnpropagatedResponse | src/graphql/execution/executor.py:809-826 | without propagation the data is never null as a whole, each recorded position is itself null in the data and is the path of its error, and none is at or above a later one |
| NullPropagation.ValueConforms | src/graphql/execution/executor.py:828-930 | a completed value has the type's shape: no null at non-null positions at any depth |
| NullPropagation.ValueLogsBelow | src/graphql/execution/executor.py:809-826 | completing at a path records only at or below it |
| NullPropagation.ValueLogsInOrder | src/graphql/execution/executor.py:184-205 | no recorded position is at or above a later one |
| NullPropagation.ValueNulls | src/graphql/execution/executor.py:809-826 | every recorded position, or an ancestor of it, is null in the value; the position itself, without propagation |
| NullPropagation.ValueNullsAreJustified | src/graphql/execution/executor.py:828-930 | every null in the value is the resolver's answer there or a recorded error |
| NullPropagation.ValueErrorsComeFrom | src/graphql/error/located_error.py:22-57 | every error recorded within a value has a path at or below its recorded position, and just that position without propagation |
| NullPropagation.RaisesQuietly | src/graphql/execution/executor.py:809-826 | without propagation what raises or is null has recorded nothing below |
| NullPropagation.NothingIsRaised | src/graphql/execution/executor.py:809-826 | without propagation no position raises |
| SortValueNode.KeyKeepsText | src/graphql/pyutils/natural_compare.py:13-21 | the text can be read off its comparison key |
| SortValueNode.KeyIsInjective | src/graphql/pyutils/natural_compare.py:13-21 | different texts have different keys, leading zeros included |
| SortValueNode.KeyAlternates | src/graphql/pyutils/natural_compare.py:13-21 | keys alternate between texts and numbers, so two keys compare without mixing them |
| SortValueNode.NameOrder | src/graphql/pyutils/natural_compare.py:13-21 | comparison by key is a strict total order on texts |
| SortValueNode.InOrderSorts | src/graphql/utilities/sort_value_node.py:38-44 | sorting fields gives a sorted permutation of them |
| SortValueNode.SortIsCanonical | src/graphql/utilities/sort_value_node.py:11-44 | for values with unique field names, two values sort to the same node if and only if they are equal up to reordering fields at every depth |
| SortValueNode.SortTwice | src/graphql/utilities/sort_value_node.py:11-44 | sorting is idempotent, with or without unique names |
| TypeChanges.OutputCheckIsExact | src/graphql/utilities/find_schema_changes.py:702-738 | the output check holds if and only if, for every meaning of the named types, each value of the new type is one of the old |
| TypeChanges.InputCheckIsExact | src/graphql/utilities/find_schema_changes.py:741-775 | the input check holds if and only if, for every meaning of the named types, scalars that take lists included, the new type accepts each value that the old one accepts, single values wrapped into lists |
| TypeChanges.UnsafeIsNotNarrower | src/graphql/utilities/find_schema_changes.py:702-738 | an output change called unsafe has a meaning and a value that the new type admits and the old one does not |
| TypeChanges.UnsafeIsNotWider | src/graphql/utilities/find_schema_changes.py:741-775 | an input change called unsafe has a meaning and a value that the old type accepts and the new one does not |
| TypeChanges.CheckWithoutListsIsExact | src/graphql/utilities/find_schema_changes.py:741-775 | the check with the rule that a named type may become a list of what takes its non-null values holds if and only if, for every meaning in which no named type takes lists, the new type accepts what the old one accepts; it is implied by the check |
| TypeChanges.ListsOfATypeAcceptIt | src/graphql/utilities/find_schema_changes.py:741-775 | the change from a type to lists of it is always called unsafe, and loses nothing, where no named type takes lists, exactly if no non-null list in the type has items that can be null |

## Left out

Traversal:

- The loop body of `visit` is split into the methods `EnterItem`, `LeaveItem`, `NextChild` and `ApplyEdits`, and its local variables are one value that each of them returns updated.
- Visitors are functions from a state, a node and its place to a new state and an answer; a missing callback is one that does nothing. The lookup of callbacks by kind and its caches are not part of this model, nor are visitors that change the nodes they are given.
- VisitMachine.Visit: says nothing of runs whose recursion is infinite, which only a visitor that keeps replacing nodes by larger ones on enter can cause.
- VisitorProperties.PlacesAreTrue: does not say which node a leave call gets, beyond its kind in CallsAreLinked; that it is the rebuilt one is part of Visit. CallsAreTrue, which says that a reading visitor leaves the very node it entered, is for trees whose children are nodes, arrays or absent.
- ParallelVisitor.EachAsIfAlone: is stated for visitors that do not edit, since a visitor that edits hides the node from the following ones. Skipping ends where a node equal to the skipped one is left; as no node contains itself, that is where the skipped one is left.
- ParallelVisitor.SameCallsAsAlone: a visitor run alone that skips the root stops with the error of the empty path, after the same calls.

Language:

- The prev and next links of tokens are positions in a growing sequence; Location objects are not part of this model.
- Lexer.Lexer.Advance: nothing is promised of a lexer after it has failed, as the parser and the stripping loop never go on then.
- Error messages and positions of syntax errors are left out; kinds of errors are kept where the code distinguishes them.
- Parser.Parser.ExpectToken: and ExpectOptionalToken speak of the kinds between the start and the end of the file; ParseSource steps over the start and tests for the end itself. When the rest of a source does not lex the methods only promise that success keeps the parser valid; ParseSource covers these sources too.
- The grammar of executable and type system documents, its printing, and the experimental parser flags.
- Source.get_location and print_location, which count lines differently from the lexer.
- BlockStringPrinting.BlockRoundTrip: and the lemmas built on it take padding made of spaces, as the printer makes it; strings hold Unicode scalar values, since a lone surrogate cannot be lexed back.

Searches:

- Names of types, fields and fragments are only compared. Error texts of the two validators are left out, the paths they report are not.
- InputCoercion.Coercer.Coerce: literals in defaults are modelled by the same values as external defaults, with a flag where the code for literals differs; variables in literals, fragment variables, custom out_type and out_name hooks are left out, and leaf coercion is a given partial function.
- InputCoercion.CoerceDefault: takes a rank as a parameter, since the recursion is only known to end when there is one; DefaultCycles.ValidateDefaultCycles decides exactly when there is, on the schema without undefined keys (SilentOnDropped).
- The arguments of `@skip`, `@include` and `@defer` are given as evaluated; errors while evaluating them and fragment variables are left out.
- The id-keyed cache of subfields, which depends on object identity.
- The checks of GraphQLSchema for unique names and its map of implementations.

Executor:

- Everything asynchronous: awaitables, abort signals, async iterators, streams and background work; with them incremental delivery, subscriptions and middleware.
- What resolvers answer is a tree of values and exceptions given in advance; resolvers that raise errors which are already located are left out.
- Executor.Executor.ExecuteFields: runs fields in order, for queries and mutations alike; the response names of one selection set are distinct, as grouping makes them.
- The type name that a path element carries for incremental delivery.

Small ones:

- SortValueNode.KeyIsInjective: digits are the ASCII ones, while the regular expression also takes other decimal digits.
- TypeChanges: the other kinds of schema changes, which compare names and descriptions.
- Scalar coercion of floats, `inspect`, suggestion wording, introspection and the building and extending of schemas.
