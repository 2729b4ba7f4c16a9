# avida-to-json in Dafny

A model of the `Converter` class of `code/avida-to-json.py`. The class converts
one Avida data file into a list of JSON records. It works in three parts.

- **Validity gate.** A file that does not exist, or whose name contains `.json`,
  is not converted. Every later step returns -1 on it and nothing is written.
  Otherwise the output file is the input name with `.json` appended.
- **Header derivation** (`_generateHeader`).
  - The header block is the leading run of stripped lines that are non-empty and
    hold a `#`.
  - A `#format` line gives the field names as its space-separated tokens after
    the first.
  - Otherwise each numbered line `# N: description` gives one camelCase,
    letters-only name.
- **Record derivation** (`_generateIntermediate`). Each stripped line that is
  non-empty and has no `#` is split on single spaces. Each token is coerced:
  - `(none)` becomes null;
  - a token `float()` accepts becomes a number;
  - anything else stays a string.

  The values are then paired with the field names by `dict(zip(...))`.

The project has these files:

| file | module | what it holds |
|---|---|---|
| `wrappers.dfy` | `Wrappers` | `Option` and `Result` |
| `text.dfy` | `Text` | Python's `strip`, `split(" ")`, `split()`, `join`, `string.capwords`, `isalpha`, `lower`, `replace(p, "")`, `re.search` and `re.match` on plain patterns |
| `floats.dfy` | `Floats` | the literal syntax `float()` accepts |
| `header.dfy` | `Header` | header block and field names, as functions, with reference definitions |
| `records.dfy` | `Rows` | token coercion, `dict(zip())` and records, as functions |
| `converter.dfy` | `AvidaToJson` | the loops as methods proved against those functions, and the class `Converter` |
| `scenarios.dfy` | `Scenarios` | concrete headers, tokens and a small file run through the model |

Some inputs are parameters rather than computed:

- whether the file exists (`os.path.isfile`);
- the file's lines, which both reading passes see the same;
- the file written, which is the outcome `Written(path, records)`.

Where the intended behaviour and the code disagree, the model follows the code:

- Malformed input is meant never to be fatal. But a numbered header line with
  an empty description (for example `# 3:`) makes `line[0]` raise `IndexError`
  at line 136. The exception escapes `__init__` and ends the batch. The model
  returns `Failure(EmptyDescription)`, and the converter records the escaped
  exception.
- An input is refused when `.json` occurs *anywhere* in its name
  (`re.search`), not only when it is the suffix a prior conversion added.
- `_checkValidFile` and `_generateIntermediate` read the global `fileName`,
  not `self.fileName`. The top-level loop makes the two equal, so the model
  uses the instance's name.

## Model

| member | source | states |
|---|---|---|
| Text.StripSpec | code/avida-to-json.py:102 | `strip()` returns a contiguous slice of the line, with no whitespace at either end, and only whitespace is cut off around it |
| Text.LeadingSpacesSpec | code/avida-to-json.py:158 | the run of whitespace `strip()` removes in front is maximal |
| Text.TrailingSpacesSpec | code/avida-to-json.py:158 | the run of whitespace `strip()` removes at the end is maximal |
| Text.Strip | code/avida-to-json.py:102 | `strip()`: never longer than the line; `Text.StripSpec` pins it down as the middle of the line between its maximal leading and trailing whitespace runs |
| Text.SplitOn | code/avida-to-json.py:166 | `split(" ")` gives at least one piece, and no piece holds a space |
| Text.JoinSplit | code/avida-to-json.py:166 | joining the pieces of `split(" ")` with single spaces gives back the line, so no character is lost (empty pieces are kept) |
| Text.SplitJoin | code/avida-to-json.py:118 | splitting a single-space join of space-free pieces gives back exactly those pieces |
| Text.SplitWhitespace | code/avida-to-json.py:133 | `split()` as `capwords` uses it: every piece is a non-empty run without whitespace; `Text.NoWordsIffBlank` and `Text.SplitWhitespaceJoin` tie it to the text |
| Text.NoWordsIffBlank | code/avida-to-json.py:133 | `split()` finds no word exactly when the text is all whitespace |
| Text.SplitWhitespaceJoin | code/avida-to-json.py:133 | `split()` recovers words that were joined by single spaces |
| Text.CapWords | code/avida-to-json.py:133 | `string.capwords`: its words are those of the text, each capitalized (`Text.CapWordsWords`), and it is empty exactly when the text is blank (`Text.CapWordsEmpty`) |
| Text.CapWordsWords | code/avida-to-json.py:133 | the words of `capwords(s)` are the words of `s`, each capitalized |
| Text.CapWordsEmpty | code/avida-to-json.py:133-136 | `capwords(s)` is empty exactly when `s` is all whitespace, which is when `line[0]` raises |
| Text.KeepAlpha | code/avida-to-json.py:139 | `"".join(x for x in line if x.isalpha())`: never longer than the line; `Text.KeepAlphaSpec` shows it holds exactly the line's letters |
| Text.KeepAlphaSpec | code/avida-to-json.py:139 | the kept characters are exactly the letters of the text |
| Text.KeepAlphaConcat | code/avida-to-json.py:139 | keeping letters distributes over concatenation |
| Text.RemoveAll | code/avida-to-json.py:130 | `replace(tag, "")`: never longer than the line; the four lemmas below show an absent tag changes nothing and every occurrence, leading or later, is removed |
| Text.RemoveAbsent | code/avida-to-json.py:130 | `replace(tag, "")` leaves a text without the tag unchanged |
| Text.RemoveLeading | code/avida-to-json.py:130 | `replace(tag, "")` removes a leading occurrence and goes on scanning after it |
| Text.RemoveSkips | code/avida-to-json.py:130 | `replace(tag, "")` keeps text without the tag's first character and goes on scanning after it |
| Text.RemoveRepeated | code/avida-to-json.py:130 | `replace(tag, "")` removes every occurrence of the tag, a later one as well as the first |
| Text.ContainsText | code/avida-to-json.py:68 | `re.search` with a pattern that matches only itself: the pattern occurs at some position; `Text.ContainsSuffix` shows it is found at the end |
| Text.ContainsSuffix | code/avida-to-json.py:68 | `re.search` finds a text's own suffix in it |
| Floats.FloatTrim | code/avida-to-json.py:176 | the whitespace `float()` ignores at both ends: never longer than the token; `Floats.FloatTrimSpec` shows which characters it removes |
| Floats.IsFloatText | code/avida-to-json.py:175-177 | `float(field)` does not raise: the token, trimmed and without one leading sign, is a decimal literal or spells `inf`, `infinity` or `nan`; the lemmas below give accepted and refused tokens |
| Floats.DigitsAreFloat | code/avida-to-json.py:175-176 | `float()` accepts a non-empty run of ASCII digits |
| Floats.PointedDigitsAreFloat | code/avida-to-json.py:175-176 | `float()` accepts two runs of digits around a point |
| Floats.FloatTextHasDigit | code/avida-to-json.py:175-178 | a token `float()` accepts either spells infinity or not-a-number, or holds a digit |
| Floats.FloatTrimSpec | code/avida-to-json.py:175-176 | `float()` parses the middle of the token left once whitespace is trimmed from both ends, ASCII whitespace except U+001C to U+001F and all non-ASCII whitespace |
| Floats.PaddedDigitsAreFloat | code/avida-to-json.py:175-176 | `float()` accepts digits with such whitespace around them |
| Floats.SeparatorIsNotTrimmed | code/avida-to-json.py:175-178 | `strip()` removes a trailing U+001C to U+001F but `float()` does not, so `"1"` followed by one is not a number |
| Header.HeaderBlock | code/avida-to-json.py:101-106 | the lines the `while True` loop collects: never more than the file's lines; `Header.HeaderBlockSpec` characterises it |
| Header.HeaderBlockSpec | code/avida-to-json.py:101-106 | the header block is the stripped lines of a prefix of the file, each non-empty with a `#`, and the line after it (if any) is not one |
| Header.HeaderBlockFrom | code/avida-to-json.py:101-106 | reading one more header line extends the block read so far by that stripped line |
| Header.HeaderBlockEnds | code/avida-to-json.py:103-104 | the block ends at the end of the file or at the first line that is empty or has no `#` |
| Header.FormatFields | code/avida-to-json.py:118-119 | `line.split(" ")[1:]`; `Header.FormatFieldsOfJoin` shows it returns the names a `#format` line was built from |
| Header.FormatFieldsOfJoin | code/avida-to-json.py:117-120 | a `#format` line built from names without spaces yields exactly those names |
| Header.NumberedTag | code/avida-to-json.py:123 | a returned tag is a prefix of the line and a whole match of `# +[0-9]+:` |
| Header.NumberedTagFindsMatch | code/avida-to-json.py:123 | every prefix that matches `# +[0-9]+:` is the tag returned, so the match is found and is unique |
| Header.Description | code/avida-to-json.py:130 | the line with every occurrence of its tag removed, stripped; `Scenarios.TaggedLine` and `Scenarios.RepeatedTagLine` show the tag goes and the rest stays |
| Header.FieldName | code/avida-to-json.py:130-139 | naming fails exactly when the description is empty; otherwise the name holds letters only |
| Header.FieldNameIsCamelCase | code/avida-to-json.py:130-139 | the name is the camelCase join of the description's words: the first lower-cased, the later ones capitalized, only letters kept |
| Header.FieldNameFirstLetter | code/avida-to-json.py:133-139 | a description starting with a letter gives a name starting with that letter lower-cased |
| Header.DeriveFrom | code/avida-to-json.py:111-142 | the `for` loop entered with names already collected; `Header.DeriveFromStep` gives each iteration and `Header.DeriveFromSpec` the whole loop |
| Header.DeriveHeader | code/avida-to-json.py:110-142 | the header derived from a header block, starting from no names; `Header.HeaderDerivation` states it through the reference definitions |
| Header.HeaderOf | code/avida-to-json.py:98-142 | the header `_generateHeader` derives from a file's lines: that of its header block |
| Header.DeriveFromStep | code/avida-to-json.py:111-142 | one pass of the `for` loop: a `#format` line ends it with its tokens; a numbered line appends its name or raises; any other line is skipped |
| Header.HeaderDerivation | code/avida-to-json.py:111-142 | the first `#format` line decides the header and replaces the names collected before it; without one, the header is the names of the numbered lines |
| Header.DeriveFromSpec | code/avida-to-json.py:111-142 | the loop entered with names already collected, in terms of the reference definitions |
| Header.NumberedNames | code/avida-to-json.py:122-142 | one name per numbered line, each made of letters |
| Header.NumberedNamesFail | code/avida-to-json.py:136 | naming the numbered lines fails exactly when one of them has an empty description |
| Header.FirstFormatLine | code/avida-to-json.py:117 | the position of the first `#format` line: no earlier line is one |
| Header.FieldCountWithoutFormat | code/avida-to-json.py:111-142 | without a `#format` line, the field count equals the number of numbered lines |
| Rows.Coerce | code/avida-to-json.py:171-179 | the value one token becomes; `Rows.CoerceRoundTrip` and the coercion lemmas below say which tokens become null, numbers and strings |
| Rows.CoerceRoundTrip | code/avida-to-json.py:170-179 | only `(none)` becomes null, a token becomes a number exactly when `float()` accepts it, and any other token stays the same string; reading the token back from a number holds of the model only (see "## Left out") |
| Rows.CoercePointedDigits | code/avida-to-json.py:175-179 | a decimal such as `3.14` becomes a number |
| Rows.CoerceDigitless | code/avida-to-json.py:175-179 | a token with no digit (other than `(none)` and the infinity and not-a-number spellings) stays the same string |
| Rows.CoerceKeepsSeparator | code/avida-to-json.py:175-178 | `"1"` followed by one of U+001C to U+001F stays a string |
| Rows.CoerceAll | code/avida-to-json.py:170-179 | one value per token, each the coercion of the token at the same position |
| Rows.CoerceAllExtend | code/avida-to-json.py:170-179 | coercing one more token appends its value |
| Rows.Zip | code/avida-to-json.py:181 | `dict(zip(header, parsedFields))`; `Rows.ZipSpec` gives its keys and values |
| Rows.ZipIntoKeys | code/avida-to-json.py:181 | `zip` pairs the first n names, n being the shorter length, and the keys are exactly those names |
| Rows.ZipIntoLast | code/avida-to-json.py:181 | each of those keys holds the value paired with its last occurrence |
| Rows.ZipIntoKeeps | code/avida-to-json.py:181 | a key that none of the paired names overwrites keeps its value |
| Rows.ZipSpec | code/avida-to-json.py:181 | a record's keys are the first n field names, and a duplicate name takes its last paired value |
| Rows.ShortRow | code/avida-to-json.py:181 | a short row gives one key per token, each paired with its token, and no key is set to null for a missing token |
| Rows.DistinctCount | code/avida-to-json.py:181 | distinct field names give as many keys as positions |
| Rows.IsDataLine | code/avida-to-json.py:161-162 | a stripped line yields a record exactly when it is non-empty and has no `#`; `Rows.NoDataNoRecords` shows the others yield none |
| Rows.RecordOf | code/avida-to-json.py:166-181 | the record of a data line: its space-separated tokens coerced and zipped with the header; `Scenarios.PairRecord` gives an example |
| Rows.LineRecords | code/avida-to-json.py:158-181 | at most one record per line: one for a data line, none otherwise |
| Rows.Records | code/avida-to-json.py:157-181 | the records of the file's lines, never more than the lines; `Rows.OneRecordPerDataLine` characterises them |
| Rows.OneRecordPerDataLine | code/avida-to-json.py:157-162 | one record per stripped data line, in line order, each the record of that line |
| Rows.RecordsOfLinesAppend | code/avida-to-json.py:181 | records paired with lines stay paired when both are concatenated |
| Rows.RecordsExtend | code/avida-to-json.py:157-181 | one more line appends its record when it is a data line, and nothing otherwise |
| Rows.RecordsAppend | code/avida-to-json.py:157-181 | the records of consecutive stretches of lines concatenate |
| Rows.NoDataNoRecords | code/avida-to-json.py:161-162 | lines that are empty or hold a `#` after stripping yield no record |
| Rows.HeaderYieldsNoRecords | code/avida-to-json.py:157-162 | the header block yields no record, so the records are those of the lines after it |
| AvidaToJson.JsonName | code/avida-to-json.py:56 | the input name with `.json` appended; `AvidaToJson.OutputNotConvertible` shows such a name is never converted |
| AvidaToJson.IsConvertible | code/avida-to-json.py:58-76 | the file exists and its name does not contain `.json` |
| AvidaToJson.Convert | code/avida-to-json.py:198-200 | the outcome of converting one file: skipped when not convertible, ended by the header exception, or written; `AvidaToJson.WrittenOutput` and `AvidaToJson.ConvertFile` relate it to the class |
| AvidaToJson.OutputNotConvertible | code/avida-to-json.py:56 | an output name `<name>.json` is never convertible |
| AvidaToJson.ConvertingOutputSkips | code/avida-to-json.py:62-71 | converting an output file skips it, whatever its contents |
| AvidaToJson.WrittenOutput | code/avida-to-json.py:183-194 | a written conversion goes to `<name>.json` and holds one record per data line, in order |
| AvidaToJson.ReadHeaderBlock | code/avida-to-json.py:98-106 | the `while True` loop returns exactly the header block |
| AvidaToJson.DeriveNames | code/avida-to-json.py:110-142 | the `for` loop returns exactly the derived header, or the empty-description failure |
| AvidaToJson.ParseFields | code/avida-to-json.py:169-179 | the loop returns each token coerced, in order |
| AvidaToJson.ReadRecords | code/avida-to-json.py:154-181 | the loop returns exactly the records of the file's lines |
| AvidaToJson.Converter.constructor | code/avida-to-json.py:44-53 | validity and output name are set; the header and records are the ones derived from the file, or the header exception escaped |
| AvidaToJson.Converter.SetJsonName | code/avida-to-json.py:55-56 | the output name is the input name with `.json` appended |
| AvidaToJson.Converter.CheckValidFile | code/avida-to-json.py:58-76 | valid exactly when the file exists and its name does not contain `.json` |
| AvidaToJson.Converter.GenerateHeader | code/avida-to-json.py:78-145 | refuses an invalid file and changes nothing; otherwise sets the derived header or reports the exception |
| AvidaToJson.Converter.GenerateIntermediate | code/avida-to-json.py:147-181 | refuses an invalid file and changes nothing; otherwise sets the records derived from the header, keeping the header |
| AvidaToJson.Converter.WriteJson | code/avida-to-json.py:183-194 | an invalid file is not written; a valid one writes its records to `jsonName` |
| AvidaToJson.ConvertFile | code/avida-to-json.py:198-200 | building a converter and writing its JSON has the outcome `Convert` specifies |
| Scenarios.NoneIsNull | code/avida-to-json.py:171-172 | `(none)` becomes null |
| Scenarios.PointedIsNumber | code/avida-to-json.py:175-176 | `3.14` becomes a number |
| Scenarios.WordIsString | code/avida-to-json.py:177-178 | `abc` stays a string |
| Scenarios.FormatOnlyHeader | code/avida-to-json.py:117-120 | `#format a b c` gives the names `a`, `b`, `c` |
| Scenarios.TaggedLine | code/avida-to-json.py:123-130 | a numbered tag followed by text without `#` is matched, and the rest of the line is the description |
| Scenarios.RepeatedTagLine | code/avida-to-json.py:123-130 | a line that repeats its tag, such as `# 1: a # 1: b`, is matched by the tag and loses both occurrences from its description |
| Scenarios.RepeatedTagRemoved | code/avida-to-json.py:130 | `# 1: a # 1: b` with `# 1:` removed is ` a  b` |
| Scenarios.OneWordLine | code/avida-to-json.py:130-139 | a one-word description gives that word lower-cased |
| Scenarios.TwoWordLine | code/avida-to-json.py:130-139 | a two-word description gives the first word lower-cased followed by the second capitalized |
| Scenarios.NumberedHeader | code/avida-to-json.py:111-142 | `# 1: Foo Bar` and `# 2: Baz` give `fooBar` and `baz` |
| Scenarios.PairRecord | code/avida-to-json.py:166-181 | the data line `<digits> <word>` under names `id`, `name` gives a number and a string |
| Scenarios.ZipPair | code/avida-to-json.py:181 | the names `id`, `name` zipped with two values give the record holding each value under its name |
| Scenarios.SmallFileHeader | code/avida-to-json.py:98-120 | the file `#format id name`, `1 Alice`, `2 Bob` has the field names `id`, `name` |
| Scenarios.SmallFileRecords | code/avida-to-json.py:154-181 | that file gives two records, in line order |
| Scenarios.SmallFile | code/avida-to-json.py:198-200 | converting `run.dat` with those lines writes `run.dat.json` holding those records |

## Left out

- Command-line parsing with `argparse`, and the top-level loop over several files (lines 28-31, 198): `AvidaToJson.ConvertFile` models one pass of the loop. An exception escaping one file would end the batch, and that is not modelled.
- Logging (lines 33-39 and every `logging` call): side effects only. `code/logger.py` and the top-level `avida-to-json.py` are not part of this model.
- File I/O: `os.path.isfile`, `open` and `readline` are inputs (whether the file exists, its lines). A file that changes between the two reads is not modelled. Nor is a failing read: a permission error or a `UnicodeDecodeError` raised by `open` or `readline` (lines 99 and 156) would escape `__init__` like the header's `IndexError`, but the model always has the lines.
- `json.dump` (lines 193-194): writing is the outcome `Written(path, records)`. The JSON text and write errors are left out.
- Rows.CoerceRoundTrip: reading a number's token back is a property of the model only, because its `Number` keeps the literal. `float()` keeps only the double, so `"1"`, `"1.0"`, `"+1"` and `"1_0"` all become `1.0`, and `json.dump` writes `1.0` for each.
- The value of a number: `float()` acceptance follows its literal syntax (sign, digits with `_` separators, point, exponent, `inf`/`infinity`/`nan` in any case) and its own trimming of surrounding whitespace, but a number keeps its literal rather than the double it denotes.
- Unicode: `isalpha`, `lower`, `upper` and the digits of `float()` are restricted to ASCII. `isspace` and `strip()` use Python's full whitespace set. `float()` trims a smaller set: CPython turns each non-ASCII whitespace character into a blank and then trims only tab, line feed, vertical tab, form feed, carriage return and blank, so U+001C to U+001F, which `strip()` removes, stay in the token.
- Key order of a `dict`: a record is a `map`, so the order of keys in the JSON object is not modelled.
- `self.headers` (line 46): the attribute is set and never read.
- Order of construction: the coerced list is defined from the last token back, while the loop of lines 170-179 appends front to back. `Rows.CoerceAllExtend` shows the two agree.
- A header exception escaping `__init__` leaves a partly built object behind in Python. The model keeps it in the field `exception`, and `Converter.Valid()` is promised only when no exception escaped.
