# A verified model of the YAML-to-configuration-language converter

`converter.py` holds one class, `ConfigParser`. It takes an already-parsed,
ordered YAML tree and writes it out in a small configuration language:

- an `=begin` / `=cut` block holding the document's top comments;
- one `(define name value);` line per constant of the `define` section;
- one `key : value;` line per remaining top-level key, each preceded by its
  `:: comment` when it has one.

Values are written recursively:

- a quoted string;
- an integer, float or boolean as Python's `str()` renders it;
- a one-line list `{ a, b }`;
- a block mapping with one `key : value,` line per entry.

A string of the form `$(...)` is not quoted. It is evaluated as a postfix
(reverse-Polish) expression over the constants, integer literals and the
operators `+ - * mod max`, and its result is written bare.

The Dafny project models this class as pure functions over an immutable
tree. Each module follows one part of the class:

| file | module(s) | part of `ConfigParser` |
|---|---|---|
| `wrappers.dfy` | `Wrappers` | `Option` and `Result` for the raised errors |
| `text.dfy` | `Text`, `TextFacts` | `str.strip`, `lstrip`, `split`, `join` and Python's whitespace class |
| `numbers.dfy` | `Numbers` | the numeric-literal pattern, `int()`, `str(int)`, floored `%` |
| `values.dfy` | `Values` | the tree (`Value`), the operators, the errors |
| `names.dfy` | `Names` | `validate_name` |
| `constants.dfy` | `Constants` | `process_defines` and the constant table |
| `evaluator.dfy` | `Evaluator`, `EvaluatorFacts` | `evaluate_expression`, plus a reference tree semantics |
| `formatter.dfy` | `Formatter`, `FormatterFacts` | `format_value` and `format_dict` |
| `reader.dfy` | `Reader`, `ReaderFacts` | a parser of the value syntax, the inverse of the serialiser |
| `converter.dfy` | `Converter` | `convert_to_custom_language` |
| `layout.dfy` | `ConverterLayout` | the shape of the produced text, section by section |
| `converter_facts.dfy` | `ConverterFacts` | properties of the whole conversion |
| `scenarios.dfy` | `Scenarios` | worked examples with their exact output |

Errors that the source raises as exceptions (`ValueError`, `TypeError`,
`AttributeError`, `ZeroDivisionError`) are `Failure` values of one `Error`
datatype. The instance's `self.constants` dictionary is a `Table` parameter.
Every table the corrected `process_defines` can build (see "## Findings")
holds only validated names bound to scalars (`Constants.ValidTable`), and
the formatter and converter require that of the table they are given. As
written, the source can also store a name ending in a line break.

Two points where the code does less or more than it appears to:

- The comment at `converter.py:140` says extra blank lines are removed. The
  filter at `converter.py:141` keeps every empty line, so nothing is
  collapsed: an empty `define` section after the comment block leaves two
  blank lines in a row (`Scenarios.BlankLinesNotCollapsed`). The model proves
  the filter drops no line the converter produces (`Converter.Convert`).
- `isinstance(value, (int, float))` at `converter.py:26` and
  `isinstance(value, (int, float, str))` at `converter.py:51` also admit
  booleans, since `bool` is a subclass of `int`. The model keeps
  `Bool` as a separate variant: it is written `True`/`False`, accepted as a
  constant, and counts as 1/0 in arithmetic.

## Model

| member | source | states |
|---|---|---|
| Names.ValidateName | converter.py:11-15 | Succeeds exactly on a non-empty name whose first character is a letter or `_` and whose other characters are letters, digits or `_`. On success it returns the name unchanged; otherwise it fails with `InvalidName` naming the input. This is the corrected validator; see Findings. |
| Names.MatchesIdentifierIsValidName | converter.py:13 | The left-to-right scan of the pattern `[_a-zA-Z][_a-zA-Z0-9]*` over the whole string accepts exactly the well-formed names. |
| Names.ValidateNameAsWritten | converter.py:11-15 | The validator as written: it succeeds exactly on well-formed names and on well-formed names followed by one `\n`, and returns the input unchanged. |
| Names.TrailingNewlineAccepted | converter.py:13 | For every well-formed name `n`, the validator as written accepts `n + "\n"` while the corrected one rejects it. |
| Constants.ProcessDefines | converter.py:46-53 | Succeeds exactly when every entry has a well-formed name and a scalar value. Otherwise it fails with the first offending entry's error, with the name checked before the type. On success each name takes the value of its last binding, every other name of the old table keeps its value, nothing else is added, and the table stays valid. |
| Constants.LaterDuplicateWins | converter.py:48-51 | An entry that no later entry renames decides the constant's value, whatever came before it. |
| Numbers.DotSeparatesLiterals | converter.py:63-64 | A token matching `-?\d+(\.\d+)?` contains a `.` exactly when it is not an integer literal, so the float/int choice agrees with the pattern. |
| Numbers.IntToString | converter.py:27 | `str(n)` is an integer literal that reads back as `n`. It has no dot, starts with `-` exactly when `n` is negative, and has no leading zero unless it is `0`. |
| Numbers.FloorMod | converter.py:70 | Python's `%`: for a positive divisor the remainder lies in `[0, b)`, for a negative one in `(b, 0]`, and `a == b * (a // b) + a % b`. |
| Text.Trim | converter.py:57 | `strip(chars)`: the result is empty exactly when every character is stripped; otherwise it starts and ends with a kept character. |
| Text.Words | converter.py:58 | `split()`: no word is empty or holds whitespace, and together the words are exactly the non-whitespace characters of the text, in order. |
| TextFacts.WordsOfInterleave | converter.py:58 | `split()` returns exactly the words of any text made of non-empty, space-free words separated by non-empty runs of whitespace, with any whitespace (or none) before the first and after the last. |
| TextFacts.TrimUnique | converter.py:57 | `strip(chars)` returns exactly the middle part when both ends are stripped characters and the middle starts and ends with kept ones. |
| TextFacts.WordsOfJoin | converter.py:58 | Splitting on whitespace undoes joining non-empty, space-free words with single spaces. |
| Evaluator.Classify | converter.py:60-89 | A token that names a constant is that constant's value, whatever it spells. A token is unknown exactly when it is neither a constant name, nor a numeric literal, nor one of `mod max + - *`, and then it keeps its text, so the error can name it. A token read as an operator is exactly that operator's name. An operand drawn from a valid table or a literal is a scalar. |
| EvaluatorFacts.OperatorNames | converter.py:65-87 | The five operator spellings are exactly the names of the five operators. |
| EvaluatorFacts.ApplyResultKinds | converter.py:65-87 | `+ - *` and `mod` always yield an `Int`, even for bool operands (`True + False` is `1`). `max` hands back the first operand unless the second is strictly greater, keeping its type. `mod` by zero fails with `DivisionByZero`. |
| Evaluator.Apply | converter.py:65-87 | Succeeds exactly on int/bool operands, except `mod` by zero. `+ - *` are exact. `mod` is the floored remainder. `max` returns one of its operands: the first unless the second is strictly greater. Non-integer operands fail with `NonIntegerOperands`. |
| Evaluator.Step | converter.py:60-89 | An operand is pushed. An unknown token fails. An operator on fewer than two entries fails with `InsufficientOperands`. Otherwise the stack shrinks by exactly one: everything below the two operands stays, and on top is `a OP b` with `b` the former top. |
| Evaluator.RunKeepsScalars | converter.py:60-87 | Only scalars ever reach the stack when the operands are scalars. |
| Evaluator.Tokens | converter.py:57-64 | With a valid table every operand token the expression text yields is a scalar, whether it names a constant or is a literal. |
| Evaluator.Evaluate | converter.py:55-93 | The evaluation succeeds with `v` exactly when the run over the expression's words leaves the one value `v`. A run that leaves any other number of values fails with `InvalidExpression`. A failing run's error is passed on. With a valid table the result is a scalar. |
| EvaluatorFacts.ExpressionWords | converter.py:57-58 | Stripping `$`, `(` and `)` from `$(m)` and splitting gives back the words that `m` joins with single spaces, when `m` neither starts nor ends with a wrapper character. |
| EvaluatorFacts.OperatorTokens | converter.py:61-87 | A constant named `mod` or `max` shadows the operator. Otherwise an operator's name reads as that operator. `+`, `-` and `*` (the lone `-` included) can never be constant names. |
| EvaluatorFacts.LiteralsNotShadowed | converter.py:61-64 | A numeric literal is never a constant name. An integer literal reads as the integer it spells; any other literal reads as a float. |
| EvaluatorFacts.IntTextIsOperand | converter.py:63-64 | The text `str(n)` of an integer, read back as a token, is the operand `n`. |
| EvaluatorFacts.RunAppend | converter.py:60-89 | Running a concatenation runs the first part, then the second on the stack the first part left, and stops at the first error. |
| EvaluatorFacts.RunPostfix | converter.py:60-89 | Running the postfix spelling of an expression tree pushes exactly the tree's value on any starting stack, or fails with the error the tree evaluation meets first. The stack machine is checked against this independent reference. |
| EvaluatorFacts.EvaluatePostfix | converter.py:55-93 | An expression whose tokens spell a tree in postfix order (N operands, N-1 operators) evaluates to the tree's value. |
| EvaluatorFacts.RunSuccessIsBalanced | converter.py:65-89 | A successful run never lets an operator find fewer than two entries, and leaves a stack as deep as the operand/operator count predicts. |
| EvaluatorFacts.RunIntTokens | converter.py:60-89 | On integer tokens, enough operands for every operator means success, unless a `mod` divides by zero. Too few means failure for lack of operands or an earlier zero divisor. Without `mod` this is an exact characterisation. |
| EvaluatorFacts.EvaluateArity | converter.py:90-93 | Evaluation succeeds only if no operator lacks operands and exactly one value is left. On integer, `mod`-free expressions that is also sufficient, and a balanced expression with a wrong final depth fails with `InvalidExpression`. |
| Formatter.FormatValue | converter.py:17-34 | A string that is not of the form `$(...)` is written between single quotes, unchanged and unescaped. An unsupported node fails with `UnsupportedValueType` naming its type. |
| FormatterFacts.FormatPlainShapes | converter.py:26-30 | An integer is written as its canonical decimal text (`IntToString`: no leading zeros, no `-0`). A boolean is written `True` or `False`, and a float as its text. A list is `{ ` + its formatted items joined by `, ` + ` }`, or fails with the items' error. A mapping is written exactly as `FormatMap` writes its entries at the same indent, expressions in it included. |
| FormatterFacts.FormatExpression | converter.py:19-24 | A `$(...)` string formats exactly when it evaluates, and is written as `str()` of the value it evaluates to; otherwise it fails with the evaluation's error. |
| Formatter.FormatEntry | converter.py:40-43 | One entry line formats exactly when its key is well-formed and its value formats one level deeper. A bad key fails with `InvalidName`, checked before the value. A failing value passes its error on. The line is the indent, `key : `, the value's text and a comma. |
| Formatter.FormatMap | converter.py:36-44 | A mapping formats exactly when its entry lines do, and a failure carries their error. The text is `{`, a line break, the entry lines joined by line breaks, a line break, and `}` at four spaces less indent. |
| FormatterFacts.FormatEntriesFirstError | converter.py:39-43 | Entry lines that fail report the error of the first entry that fails, and every entry before it formats. |
| FormatterFacts.FormatItemsFirstError | converter.py:29 | A list that fails reports the error of its first item that fails, and every item before it formats. |
| Formatter.FormatItems | converter.py:29 | A list's items are formatted in order at the same indent, one text per item. |
| Formatter.FormatEntries | converter.py:40-43 | A mapping gives one line per entry, in order, each the entry's `key : value,` line. |
| FormatterFacts.FormatSucceedsIff | converter.py:17-34 | `format_value` succeeds exactly on values whose every expression evaluates, whose every mapping key at every depth is well-formed, and which hold no unsupported node. |
| FormatterFacts.FormatItemsSucceedIff | converter.py:28-30 | A list formats exactly when every item does. |
| FormatterFacts.FormatEntriesSucceedIff | converter.py:40-43 | A mapping formats exactly when every key is well-formed and every value formats. |
| FormatterFacts.FormatEntrySucceedsIff | converter.py:41-43 | One entry line formats exactly when its key is well-formed and its value formats. |
| FormatterFacts.ClassifyPostfix | converter.py:60-64 | The words `str(n)` and the operator names of a postfix spelling read back as the tree's postfix tokens, when no constant is named after an operator. |
| FormatterFacts.PostfixTokens | converter.py:55-64 | `$(` + the postfix words joined by spaces + `)` is an expression string whose tokens are the tree's postfix tokens. |
| FormatterFacts.FormatPostfix | converter.py:17-24 | An integer expression tree written in postfix as `$(...)` is formatted as `str()` of the tree's value when the tree evaluates, and fails with the tree's first error otherwise. |
| FormatterFacts.ConstantsOnlyReachExpressions | converter.py:19-24 | A value with no `$(...)` string anywhere formats the same against every constant table. |
| ReaderFacts.ReadFormatted | converter.py:17-44 | Round trip: a plain value formats successfully to text that does not start with a space. Reading that text back, followed by any text that cannot continue a bare token, returns the value and leaves the following text unread. A plain value has no expressions, no quote inside strings, well-formed keys and no unsupported node. |
| ReaderFacts.ReadFormattedList | converter.py:28-30 | The round trip for lists: `{ a, b }` reads back as the list of its items. |
| ReaderFacts.ReadFormattedMap | converter.py:36-44 | The round trip for mappings: the entry lines at `indent`, closed by a brace at `indent - 4`, read back as the mapping, keys and order included. |
| ReaderFacts.ReadFormattedEntries | converter.py:38-44 | The joined entry lines followed by the closing line read back as exactly the entries. |
| ReaderFacts.EntryValueRoundTrip | converter.py:41-43 | An entry with a well-formed key and a plain value formats. Its value, written one level deeper, reads back. |
| Converter.CleanCommentIsTrim | converter.py:106 | The comment cleanup equals `lstrip("# ")` followed by `strip()`. |
| Converter.CleanCommentFacts | converter.py:106 | A cleaned comment is no longer than the raw one and neither starts nor ends with whitespace. |
| Converter.CleanCommentEmpty | converter.py:106 | A comment cleans to nothing only when it holds nothing but `#`, spaces and whitespace. |
| Converter.HeaderLines | converter.py:100-112 | Without top comments there is no block. Otherwise it is `=begin`, each cleaned comment in order, `=cut`, and a blank line. |
| Converter.DefineValue | converter.py:115-116 | There is no `define` section exactly when no entry is keyed `define`; otherwise it is the value of the first such entry. |
| Converter.Body | converter.py:116-123 | The keys iterated after the pop: no entry keyed `define` is left. |
| Converter.DefineBlock | converter.py:114-120 | No section leaves the table and the lines unchanged. A section that is not a mapping fails. When `process_defines` rejects a constant, the block fails with exactly that error. Otherwise every constant is accepted, the table stays valid, and the lines are one `(define k v);` per entry in order, then a blank line. |
| Converter.EntryLines | converter.py:135-138 | An entry succeeds exactly when its key is well-formed and its value formats at the top indent, and fails with `InvalidName` on a bad key. With a good key, a failure is the value's formatting error, passed on unchanged. Its lines are the comment line, `key : value;` and a blank line. |
| Converter.KeepLines | converter.py:141 | The filter keeps only lines that are empty or have a non-whitespace character. |
| Converter.KeepLinesSingle | converter.py:141 | A single line is kept when it is empty or has a non-whitespace character, and dropped otherwise (not blanked). |
| Converter.KeepLinesAppend | converter.py:141 | The filter works line by line: filtering two pieces and putting the results together is filtering the whole, so the kept lines stay in order and a line's fate depends on that line alone. With KeepLinesSingle this fixes the output for every list. |
| Converter.KeepLinesUnchanged | converter.py:141 | A list none of whose lines is non-empty and made only of whitespace passes the filter unchanged. |
| Converter.KeepPrintable | converter.py:141 | The filter returns a list of printable lines unchanged. A printable line is empty or starts with a non-whitespace character. |
| Converter.ConvertLinesPrintable | converter.py:99-138 | Every line the conversion produces is printable. |
| Converter.Convert | converter.py:95-141 | The conversion succeeds exactly when the produced lines do, and a failure carries their error unchanged. The text is all of those lines joined by line breaks, blank lines included. |
| ConverterFacts.EntryLinesSucceedIff | converter.py:135-137 | A top-level entry converts exactly when its key is well-formed and its value is formattable. |
| ConverterFacts.BodyLinesSucceedIff | converter.py:123-138 | The entries convert exactly when each one does. |
| ConverterFacts.ConvertError | converter.py:114-138 | A failing conversion reports the `define` section's error when that section fails: it is not a mapping, or `process_defines` rejects a constant. Otherwise it reports the error of the entries under the table the defines produced. |
| ConverterFacts.BodyLinesFirstError | converter.py:123-138 | A failing conversion of the entries reports the error of the first entry that fails. |
| ConverterFacts.ConvertSucceedsIff | converter.py:114-138 | A document converts exactly when its `define` section is absent or is a mapping that `process_defines` accepts, and every other entry converts against the resulting table. |
| ConverterFacts.DefineNotMappingFails | converter.py:116-118 | A `define` section that is not a mapping makes the conversion fail. |
| ConverterFacts.ConvertLinesParts | converter.py:99-138 | The produced lines are the comment block, then the define block, then the entries' lines, the entries formatted with the table the defines produced. |
| ConverterFacts.HeaderLayout | converter.py:100-112 | With top comments, the output starts with `=begin`, then each cleaned comment, then `=cut` and a blank line. |
| ConverterFacts.DefineLayout | converter.py:114-120 | Right after the comment block come the define lines, one per constant in order, followed by a blank line. |
| ConverterFacts.BodyLinesAreBlocks | converter.py:123-138 | The entries' lines are, entry by entry, its comment lines, `key : value;` and a blank line. |
| ConverterFacts.DefineBlockText | converter.py:114-120 | A successful define block yields the define section's lines and the table after the defines. |
| ConverterFacts.ConvertLinesLayout | converter.py:99-138 | The whole output in one equation: comment block, define section, then one block per remaining entry in document order. |
| ConverterFacts.SpliceBody | converter.py:116-123 | Popping the only `define` entry leaves the other entries in their order. |
| ConverterFacts.DefinePositionIrrelevant | converter.py:114-123 | Since the section is popped and processed first, the position of the `define` entry among the keys (and its comment) does not change the output. |
| Scenarios.EvaluateSum | converter.py:77-83 | `$(3 4 +)` is 7. |
| Scenarios.EvaluateMod | converter.py:65-70 | With `a = 10` and `b = 3`, `$(a b mod)` is 1. |
| Scenarios.EvaluateMax | converter.py:71-76 | With `a = 10` and `b = 3`, `$(a b max)` is 10. |
| Scenarios.EvaluateUnderflow | converter.py:77-79 | `$(+)` fails for lack of operands. |
| Scenarios.FormatNested | converter.py:28-44 | `{x: 1, y: [1, 2, 3]}` at indent 4 is written `{\n    x : 1,\n    y : { 1, 2, 3 },\n}`. |
| Scenarios.ConvertWithDefine | converter.py:114-138 | `define: {step: 2}` followed by `value: $(step step *)` is written `(define step 2);`, a blank line, `value : 4;` and a blank line. |
| Scenarios.BlankLinesNotCollapsed | converter.py:99-141 | A comment block followed by an empty `define` section ends in two blank lines in a row. |

## Left out

- `parse_yaml_with_comments`, `main`, the argument parser and the file reading and writing are not modelled: they are I/O around the class. The document is given as a `Converter.Document`: its top comments and its top-level entries, so it is always a mapping.
- Converter.Convert: a document that is not a mapping cannot be expressed. In the source an empty file loads as `None` and `'define' in data` raises `TypeError` at `converter.py:115`; a top-level list or scalar reaches `data.items()` and raises `AttributeError` at `converter.py:123`, or fails earlier at `converter.py:115`.
- The `ruamel.yaml` comment objects (`data.ca.comment[1]`, `data.ca.items[key][2]`, `CommentToken.value`) are not modelled. Each top comment is given as its raw text, and each entry's comment as its raw text, with `""` for no comment. A comment token whose text is empty would make the source write `:: `; the model writes nothing.
- A top comment that is neither a string nor has a `value` is skipped by the source. In the model every top comment is a string.
- The `print` calls in `format_value` and `evaluate_expression` are not modelled: they only log.
- Evaluator.Apply: float and string arithmetic is not carried out. Mixing a float or string operand into `+ - * mod max` gives `NonIntegerOperands`. In Python it would compute a float, concatenate, repeat or `%`-format a string, compare two strings for `max`, or raise `TypeError`.
- Evaluator.Classify: a float literal keeps its token text (`Flt("1.50")`). Python's `float()` then `str()` would render it `1.5`.
- Values.Value: a float in the tree carries the text Python's `str()` gives it, so float rendering is taken as given.
- Numbers.IsNumericLiteral: `\d` is taken as the ASCII digits only. Python's `re` also matches other Unicode decimal digits, which `int()` accepts.
- Only string keys are modelled: mapping keys are `string`. A non-string YAML key would reach `re.match` and raise `TypeError` there.
- Constants.ValidTable: the formatter and converter require the constant table to hold only validated names bound to scalars. Every table the corrected `process_defines` builds from the class's initially empty one satisfies this. The source as written can also store a name ending in one `\n` (see Findings).
- Values.Value: a mapping is a sequence of entries, so the model admits mappings that repeat a key. No Python dict, and so no loaded YAML mapping, can do that. For such mappings, what `FormatMap`, `ProcessDefines` and `LaterDuplicateWins` say about repeated keys has no counterpart in the source.
- Formatter.FormatEntry: uses the corrected validator (see Findings). A mapping key ending in one `\n`, which the source accepts and writes out, makes the model fail with `InvalidName`.
- Constants.ProcessDefines: uses the corrected validator. A define name ending in one `\n`, which the source accepts and stores, makes the model fail with `InvalidName`.
- Converter.EntryLines: uses the corrected validator. A top-level key ending in one `\n`, which the source accepts and writes out, makes the model fail with `InvalidName`, and so does `Converter.Convert` on such a document.
- Numbers.ParseInt: integers are unbounded. CPython 3.11 and later (and the security releases of 3.7 to 3.10) refuse to convert a decimal text of more than 4300 digits, so `int()` at `converter.py:64` raises `ValueError` on such a literal where the model succeeds.
- Numbers.IntToString: the same 4300-digit limit applies to `str()` at `converter.py:24` and `converter.py:27`; for example `$(a a *)` with a 3000-digit constant `a` raises `ValueError` in the source, while the model writes the product.
- Converter.DefineValue: a Python dict cannot hold two `define` keys. In the model's entry sequence the first such entry is the section, and later ones are dropped from the body as the pop would drop the key.

## Findings

| source | as written | input that shows it | evidently intended | confidence | as-written member | corrected member |
|---|---|---|---|---|---|---|
| converter.py:13 | `re.match(r'^[_a-zA-Z][_a-zA-Z0-9]*$', name)`: in Python `$` also matches just before a final line break | `"a\n"` is accepted as a name and written out with its line break | accept only names made entirely of identifier characters (`re.fullmatch`, or `\Z`) | not executed | Names.ValidateNameAsWritten, Names.TrailingNewlineAccepted | Names.ValidateName |
