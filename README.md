# csv-schema parser — a verified model

csv-schema turns the rows of a CSV file into typed records. A parser is configured with a
**schema**, an ordered map from output key to a **type expression**. A type expression is `name`
or `name:parameter`, for example `string`, `int`, `float` or `array:,`. For each row, column *i* is
converted by the type of schema entry *i* and stored under key *i*.

Four types are built in:

- `string` is the identity.
- `int` and `float` reject anything that is neither numeric nor empty, then cast.
- `array:d` trims the value and splits it on `d`.

Client code can register further types in a process-wide table. A registered converter receives the
raw value and the parameter string. A built-in type always wins over a custom type with the same
name. A type name that is neither fails with an "unsupported type" error. A batch of rows maps the
row conversion over every row, dropping the first row when `skipTitle` is configured.

This project models that engine (`src/Parser.php`) in Dafny and proves its contracts.

| file | module | contents |
|---|---|---|
| `types.dfy` | `Types` | `Option`, `Result`, the error taxonomy, converted values, the custom converter type |
| `text.dfy` | `Text` | PHP's `strpos` of one character, `explode`/`implode`, `trim`, ASCII lower-casing |
| `numeric.dfy` | `Numeric` | the decimal numerals the numeric guard accepts, and their `(int)` and exact values |
| `parser.dfy` | `Parser` | type expressions, dispatch, built-in converters, `parseRow`, configuration, `parse` |
| `registry.dfy` | `Registry` | the class-level custom-type table as a class with a `map` field updated in place |
| `properties.dfy` | `ParserProperties` | round trips, dispatch, registration, row and batch lemmas |
| `examples.dfy` | `ParserExamples` | the behaviours the repository's own specification file documents, proved |

Errors are values:

- `UnsupportedType(name)` models `UnsupportedTypeException`.
- `CastFailure(value, target)` models `CastException` and its message parameters.
- `MissingParameter("array")` stands for an `array` type without a usable delimiter.
- `ConverterFailure` is available to custom converters.

An exception raised by any field aborts the row, and an aborted row aborts the batch. This is
`Collect`: the first failure in order wins.

## Model

| member | source | states |
|---|---|---|
| Parser.ParseType | src/Parser.php:172-181 | with a colon, the name has no colon and name + ":" + parameter is the expression (so the parameter is everything after the first colon); without one, the name is the expression and there is no parameter |
| ParserProperties.ParseTypeRender | src/Parser.php:172-181 | splitting the spelling of a colon-free name with any parameter gives that name and parameter back |
| ParserProperties.RenderParseType | src/Parser.php:172-181 | re-spelling a split expression gives the expression back |
| ParserExamples.ParameterKeepsColons | src/Parser.php:176-177 | `date:H:i` splits into `date` and `H:i`: later colons stay in the parameter |
| Parser.BuiltinFor | src/Parser.php:188-191 | a name reaches built-in string/int/float/array exactly when its ASCII lower-case form is that word (method lookup ignores case) |
| Text.IndexOf | src/Parser.php:176 | the position of the first colon, or the length when there is none: no colon stands before it |
| Parser.Resolve | src/Parser.php:156-162 | resolution succeeds iff the name is built in or registered; a built-in wins over a registered type of the same name; otherwise the registered converter is used; failure is `UnsupportedType(name)` |
| ParserProperties.GetValueDispatch | src/Parser.php:152-165 | the name before the first colon picks the converter: the built-in when the name is built in; else the registered converter, applied to the value and the parameter; else failure with `UnsupportedType(name)` |
| ParserProperties.BuiltinKinds | src/Parser.php:164 | each built-in converter yields a value of its own kind; int and float fail exactly when the guard does, with the cast error naming their target; string never fails; array fails only for a missing delimiter |
| ParserProperties.BuiltinTakesPrecedence | src/Parser.php:152-165 | a built-in name converts with the built-in, whatever is registered |
| ParserProperties.CustomReceivesParameter | src/Parser.php:158-164 | a registered non-built-in name converts with its converter, which receives the raw value and the parameter verbatim |
| ParserProperties.UnknownTypeUnsupported | src/Parser.php:160-161 | a name neither built in nor registered fails with `UnsupportedType` naming it |
| ParserProperties.RegisteredTypeLookup | src/Parser.php:67-70 | after registering `f` under a non-built-in name, expressions with that name convert with `f`; expressions with any other name convert as before |
| Registry.TypeRegistry.constructor | src/Parser.php:48 | the table starts empty |
| Registry.TypeRegistry.HasCustomType | src/Parser.php:260-263 | for a name that is not built in, it holds exactly when dispatch resolves the name, and then dispatch uses the registered converter |
| Registry.TypeRegistry.RegisterType | src/Parser.php:67-70 | the new table is the old one with `name` mapped to `f`; `HasCustomType(name)` holds afterwards; every other name keeps its registration status and converter |
| Numeric.NumeralShape | src/Parser.php:250 | the numeric strings are exactly those whose characters are digits, at most one decimal point and a leading sign, with at least one digit |
| Parser.GuardAgainstNonNumeric | src/Parser.php:248-253 | fails exactly when the value is not numeric and not empty, with a cast error naming value and target |
| Parser.ParseString | src/Parser.php:198-201 | succeeds with the value itself, whatever the parameter |
| Parser.ParseInt | src/Parser.php:210-215 | fails exactly when the guard fails (target "int"); "" gives 0; a numeral gives the integer its exact value truncates to toward zero (PHP truncates the nearest double of a decimal numeral; see "## Left out") |
| ParserProperties.ParseIntRoundTrip | src/Parser.php:210-215 | the decimal spelling of any integer converts back to that integer |
| Parser.ParseFloat | src/Parser.php:224-229 | fails exactly when the guard fails (target "float"); "" gives 0.0; a numeral gives its exact decimal value |
| ParserProperties.ParseIntTruncatesParseFloat | src/Parser.php:210-229 | on a numeral both succeed and the int result is the float result truncated toward zero |
| Parser.ParseArray | src/Parser.php:237-240 | succeeds iff a non-empty delimiter is given; the pieces are at least one, none contains the delimiter, joined with the delimiter they give the trimmed value, and each piece but the last ends at the leftmost occurrence of the delimiter in what remains |
| ParserProperties.ParseArrayJoin | src/Parser.php:237-240 | with a one-character delimiter, a trimmed join of pieces that do not contain it splits back into exactly those pieces |
| ParserProperties.ParseArrayUnique | src/Parser.php:237-240 | for any delimiter, a trimmed join of delimiter-free pieces that end at leftmost occurrences splits back into exactly those pieces |
| Text.Explode | src/Parser.php:239 | explode: at least one piece, joining the pieces gives the input, no piece contains the delimiter, and each piece but the last ends at the leftmost occurrence of the delimiter in the rest of the input |
| Text.ExplodeUnique | src/Parser.php:239 | for any non-empty delimiter, explode is the only such split: it undoes implode on delimiter-free pieces that end at leftmost occurrences |
| Text.ExplodeJoin | src/Parser.php:239 | explode undoes implode for a one-character delimiter absent from the pieces |
| Text.Trim | src/Parser.php:239 | trim: the result is a contiguous slice of the input, starts and ends with a kept character, and everything cut off is whitespace or NUL |
| Text.TrimIdempotent | src/Parser.php:239 | trimming twice is trimming once |
| Text.FirstOccurrence | src/Parser.php:239 | the leftmost occurrence of the delimiter, or none at all |
| Numeric.NumeralInt | src/Parser.php:214 | the model's `(int)` of a numeral is the numeral's exact value truncated toward zero (PHP truncates the nearest double of a decimal numeral; see "## Left out") |
| Numeric.NumeralReal | src/Parser.php:228 | the exact value of a numeral lies within one of the value of its integer digits, on the side of its sign |
| Numeric.IntToStringIsNumeral | src/Parser.php:212-214 | an integer's decimal spelling passes the numeric guard and casts back to the integer |
| Parser.Collect | src/Parser.php:99-107 | all values in order when every element succeeded; otherwise the error of the first failing element |
| Parser.ParseRow | src/Parser.php:97-108 | succeeds iff every field converts; entry i has schema key i and column i converted by schema type i; on failure, the error of the first failing field |
| ParserProperties.ParseRowKeys | src/Parser.php:104-106 | the record's keys are exactly the schema's keys, in schema order |
| ParserProperties.ParseRowAllConverted | src/Parser.php:97-108 | when every field converts to a given value, the record pairs each schema key with that value |
| ParserProperties.ParseRowFirstFailure | src/Parser.php:97-108 | when field k fails and none before it does, the row fails with field k's error |
| ParserProperties.RowOfHalves | src/Parser.php:99-107 | the record of a row split in two is the two records concatenated |
| Parser.GetConfigValue | src/Parser.php:139-142 | the configured value when set and not null, otherwise the default |
| Parser.Truthy | src/Parser.php:124 | the falsy configuration values are exactly null, false, 0, "" and "0" |
| Parser.SkipTitle | src/Parser.php:124 | skipTitle is off when the key is absent or null; otherwise the truthiness of the configured value decides it |
| Parser.Shift | src/Parser.php:125 | the rows after the first, shifted down by one; nothing on an empty collection |
| Parser.DataRows | src/Parser.php:124-126 | the rows from the first data row on: all rows, or all but the first when skipTitle is set and there are rows; row j of the result is input row j + 1 in the latter case |
| Parser.RowResults | src/Parser.php:128-130 | one row result per data row, in order: result j is the parse of data row j; only the data rows must have the schema's width |
| Parser.Parse | src/Parser.php:115-131 | succeeds iff every data row parses; then it holds one record per input row, one fewer when skipTitle drops a title row, record j being data row j's; otherwise it fails with the error of the first data row that fails. A dropped title row may have any width |
| ParserProperties.ParseKeepsEveryRow | src/Parser.php:122-130 | without skipTitle, record i is the record of row i |
| ParserProperties.ParseDropsTitle | src/Parser.php:124-130 | with skipTitle, record i is the record of row i + 1, whatever the width of the title row |
| ParserExamples.StringColumns | spec/ParserSpec.php:41-56 | `baz`, `qux` under two string fields give `foo => baz, bar => qux` |
| ParserExamples.IntColumns | spec/ParserSpec.php:58-73 | `15`, `25` under two int fields give 15 and 25 |
| ParserExamples.ArrayColumn | spec/ParserSpec.php:75-88 | `hello,world,how,are,you` under `array:,` gives its five comma-separated pieces |
| ParserExamples.FloatColumns | spec/ParserSpec.php:90-105 | `12`, `18.5` under two float fields give 12.0 and 18.5 |
| ParserExamples.ComplexSchema | spec/ParserSpec.php:107-126 | a string, int, float and array schema converts each column by its own type |
| ParserExamples.UnsupportedTypeFails | spec/ParserSpec.php:128-137 | a row with the unknown type `foo` fails with `UnsupportedType("foo")` |
| ParserExamples.NonNumericFails | spec/ParserSpec.php:139-159 | `a` under int or float fails with a cast error |
| ParserExamples.EmptyIsZero | src/Parser.php:250 | the empty string passes the guard and converts to 0 and 0.0 |
| ParserExamples.RegisterAndParse | spec/ParserSpec.php:161-181 | after registering `foo` (append "foo") and `square`, the row `test`, `5` gives `testfoo` and 25 |
| ParserExamples.ParameterisedCustomType | spec/ParserSpec.php:183-202 | `multiply:2` and `multiply:4` on 2 give 4 and 8 |
| ParserExamples.StringSchemaParses | spec/ParserSpec.php:12-27 | with an all-string schema every batch parses, one record per data row |
| ParserExamples.ThreeRowsThreeRecords | spec/ParserSpec.php:22-23 | three rows give three records |
| ParserExamples.TwoRowsTwoRecords | spec/ParserSpec.php:25-26 | two rows give two records |
| ParserExamples.TitleRowDropped | src/Parser.php:124-125 | with skipTitle set, three rows give two records |
| ParserExamples.WideTitleSkipped | src/Parser.php:124-128 | with skipTitle set, a two-column title over a one-column row gives that row's record |

## Left out

- `fromString`, `fromFile` and the reader configuration (delimiter, enclosure, escape, encoding) are CSV tokenising and file I/O in an external library. Batches are modelled over rows that are already split into columns.
- `src/test.php` is a script that reads a fixed local file and dumps it. It holds no logic.
- Parser.ParseFloat: gives the exact decimal value as a `real`. PHP's rounding to an IEEE double is not modelled.
- Parser.ParseInt: integers are unbounded. PHP's saturation of `(int)` at the 64-bit limits is not modelled. On PHP 7.1 and later, `(int)` of a numeral with a decimal point truncates the numeral's nearest double, so a numeral that the double rounds across an integer (`0.99999999999999999` gives 1) differs from the model's exact truncation, which gives 0.
- Numeric.NumeralInt: truncates the exact value of a numeral. On PHP 7.1 and later, `(int)` of a numeral with a decimal point truncates its nearest double instead, so a numeral that the double rounds across an integer (`0.99999999999999999` gives 1 in PHP, 0 here) differs.
- Numeric.IsNumeric: PHP's `is_numeric` is simplified to an optional sign and digits with at most one decimal point and at least one digit. Leading or trailing whitespace, exponents and hexadecimal forms are not modelled.
- Parser.Truthy: configuration values are null, booleans, integers or strings; floats and arrays, whose 0.0 and [] are also falsy in PHP, are not modelled.
- Parser.BuiltinFor: the built-in dispatch is a table of the four converters. The method lookup on `'parse'.ucfirst($type)` would also reach the parser's other methods for the type names "" (`parse`), `row` (`parseRow`) and `type` (`parseType`). Those quirks are not modelled.
- Parser.ParseRow: requires the row to have exactly one column per schema entry. The code pairs columns with the schema through a collection `zip`, which pads the shorter side with nulls. A shorter row therefore converts null for each missing column, and a longer row pairs its extra columns with a null type, which reaches the method `parse` and fails with a TypeError. Rows of another width than the schema's are not modelled.
- Parser.ParseArray: a missing or empty delimiter gives `MissingParameter("array")`. The code passes the empty parameter list or the empty string to `explode`. On PHP 8 `explode` throws (a ValueError for the empty string, a TypeError for the list); on PHP 7 it emits a warning and yields false or null, and the row continues with that value. The model fails with `MissingParameter("array")` instead.
- Parser.ParseRow: the record is a sequence of key/value entries in schema order. Collapsing the per-field arrays renumbers numeric-string keys in PHP; that is not modelled.
- Parser.Parse: each record's cast to an object is a change of representation only and is not modelled.
- Custom converters are opaque total functions from the raw value and the optional parameter to a result. Their internals, and PHP values they may return beyond strings, numbers and lists, are not modelled.
- The custom-type table is process-wide static state. The model passes the table's map to the conversion functions. Concurrent access is not modelled, since the code is single-threaded.
